/** The whole system over time: trees change and are scanned, one after another; the runs that pack a snapshot crash,
    and go on until one finishes or the snapshot is abandoned; and any snapshot that was packed can be restored. */
module World {
  import opened Types
  import opened Int64
  import opened LineLog
  import opened OnDisk
  import opened Commit
  import opened Recovery
  import opened PackRun
  import opened Resume
  import opened ObjectIndex
  import opened Scan
  import opened Identity
  import opened Collect
  import opened Restore
  import opened TornIndex
  import opened Layout
  import opened Repository
  import opened PathSafe

  /** One tree, its scan, and the pack runs for its snapshot; `hashed` says which files the scan hashes, and
      `others` are the paths of what the tree has besides files. */
  datatype Session = Session(tree: seq<FileStat>, others: Others, hashed: FileStat -> bool, snap: seq<SnapFile>,
                             runs: seq<Run>)

  /** What the file system gives for a path of the tree. */
  function Contents(tree: seq<FileStat>, path: Bytes): Bytes {
    if tree == [] then [] else if tree[0].path == path then tree[0].data else Contents(tree[1..], path)
  }

  function Reader(tree: seq<FileStat>): (f: Bytes -> Bytes)
    ensures forall p :: f(p) == Contents(tree, p)
  {
    p => Contents(tree, p)
  }

  function Objects(ses: Session): seq<Obj> { Collected(ses.snap, Reader(ses.tree)) }

  function TreePaths(tree: seq<FileStat>): (paths: seq<Bytes>)
    ensures |paths| == |tree|
  {
    seq(|tree|, i requires 0 <= i < |tree| => tree[i].path)
  }

  /** What a walk over a file system yields: paths of names, none for two files, none that leads through a file or a
      symbolic link; and equal path, size and time mean equal bytes. */
  ghost predicate TreeOk(truth: Truth, tree: seq<FileStat>, others: Others) {
    && Honest(truth, tree) && OneContentPerInode(tree) && DistinctFiles(tree)
    && (forall i :: 0 <= i < |tree| ==> Acceptable(tree[i].path) && WritableFile(tree[i]))
    && OthersSafe(others) && Apart(TreePaths(tree) + others.links)
  }

  /** A file as file systems have them: no NUL in its path, a size and times that a double holds exactly. */
  predicate WritableFile(f: FileStat) { 0 !in f.path && |f.data| <= EXACT && WritableTime(f.mtime) }

  /** The tree is scanned against the index as it is, and runs pack its snapshot, crashed anywhere or finished. */
  ghost predicate ValidSession(c: Codec, truth: Truth, d: Disk, ses: Session) {
    && TreeOk(truth, ses.tree, ses.others)
    && Loaded(c, ReadLines(d.log)).Some?
    && var es := Loaded(c, ReadLines(d.log)).value;
    && NextId(es) + |ses.tree| <= UINT64_MAX
    && Scanned(c, es, ses.hashed, ses.tree, ses.snap)
    && SnapshotRuns(c, d, ses.runs, Objects(ses))
  }

  /** The last of its runs went on to the end; otherwise the snapshot is abandoned. */
  predicate Finished(c: Codec, d: Disk, ses: Session) {
    ses.runs != [] && Finishes(c, PlayFrom(c, d, ses.runs[..|ses.runs| - 1]), ses.runs[|ses.runs| - 1])
  }

  function AfterSession(c: Codec, d: Disk, ses: Session): Disk { PlayFrom(c, d, ses.runs) }

  /** The disk after sessions on a new repository. */
  function Lived(c: Codec, sessions: seq<Session>): Disk {
    if sessions == [] then EMPTY else AfterSession(c, Lived(c, sessions[..|sessions| - 1]), sessions[|sessions| - 1])
  }

  ghost predicate ValidLife(c: Codec, truth: Truth, sessions: seq<Session>) {
    sessions == []
    || (ValidLife(c, truth, sessions[..|sessions| - 1])
        && ValidSession(c, truth, Lived(c, sessions[..|sessions| - 1]), sessions[|sessions| - 1]))
  }

  /** Session `k` was not abandoned. */
  predicate WasPacked(c: Codec, sessions: seq<Session>, k: nat)
    requires k < |sessions|
  {
    Finished(c, Lived(c, sessions[..k]), sessions[k])
  }

  /** The entries tell the truth, and numbers are left. */
  ghost predicate Truthful(c: Codec, truth: Truth, es: seq<Entry>) {
    AllTrue(c, truth, es) && IdsLeft(es) && AllFit(es)
  }

  /** Either the index cannot be read, or what is read is a safe repository that has every entry of `base`. */
  ghost predicate UnreadableOrSafe(c: Codec, base: Disk, t: Disk) {
    Loaded(c, ReadLines(t.log)) == None || (IndexSafe(c, Closed(t)) && Entries(c, base.log) <= Known(c, t))
  }

  /** After any sessions: what the complete lines say is true, and so is what can be read with a last line that
      lacks its newline. */
  ghost predicate Settled(c: Codec, truth: Truth, d: Disk) {
    && Safe(c, d) && Truthful(c, truth, Entries(c, d.log)) && UnreadableOrSafe(c, d, d)
    && (Loaded(c, ReadLines(d.log)) == None || Truthful(c, truth, Known(c, d)))
  }

  ghost predicate HasBytes(c: Codec, es: seq<Entry>, id: string, data: Bytes) {
    exists e :: e in es && e.id == id && EntryFits(c, e, data)
  }

  /** Every file of the snapshot has an entry that describes the bytes it had when it was scanned. */
  ghost predicate Kept(c: Codec, es: seq<Entry>, ses: Session) {
    && |ses.snap| == |ses.tree|
    && forall i :: 0 <= i < |ses.tree| ==>
         ses.snap[i].path == ses.tree[i].path && HasBytes(c, es, ses.snap[i].id, ses.tree[i].data)
  }

  lemma KeptLonger(c: Codec, es: seq<Entry>, fs: seq<Entry>, ses: Session)
    requires Kept(c, es, ses) && es <= fs
    ensures Kept(c, fs, ses)
  {
    forall i | 0 <= i < |ses.tree| ensures HasBytes(c, fs, ses.snap[i].id, ses.tree[i].data) {
      HasBytesLonger(c, es, fs, ses.snap[i].id, ses.tree[i].data);
    }
  }

  lemma HasBytesLonger(c: Codec, es: seq<Entry>, fs: seq<Entry>, id: string, data: Bytes)
    requires HasBytes(c, es, id, data) && es <= fs
    ensures HasBytes(c, fs, id, data)
  {
    hide EntryFits;
    var e :| e in es && e.id == id && EntryFits(c, e, data);
    assert e in fs;
  }

  lemma {:induction false} ContentsAt(tree: seq<FileStat>, i: nat)
    requires DistinctFiles(tree) && i < |tree|
    ensures Contents(tree, tree[i].path) == tree[i].data
  {
    if i > 0 { ContentsAt(tree[1..], i - 1); }
  }

  // ---------------------------------------------------------------- one session

  /** What a session starts from. */
  ghost predicate Begins(c: Codec, truth: Truth, d: Disk, ses: Session) {
    && Sound(c) && Settled(c, truth, d) && ValidSession(c, truth, d, ses)
  }

  /** What can be read of an index that is safe when closed is what it then holds. */
  lemma KnownLoads(c: Codec, d: Disk)
    requires Sound(c) && IndexSafe(c, Closed(d))
    ensures Loaded(c, ReadLines(d.log)) == Some(Known(c, d))
    ensures DistinctEntryIds(Known(c, d)) && IdsWritable(Known(c, d))
  {
    ReadLinesWhole(d.log);
    SafeWritable(c, Closed(d));
    IndexDistinct(c, Closed(d));
    hide EntrySafe, DistinctEntryIds, DistinctPackPaths, Loaded, ReadLines, Entries;
    WholeIndexLoads(c, Closed(d).log);
  }

  lemma IndexDistinct(c: Codec, d: Disk)
    requires IndexSafe(c, d)
    ensures DistinctEntryIds(Entries(c, d.log)) && IdsWritable(Entries(c, d.log))
  {
    forall e | e in Entries(c, d.log) ensures WritableId(e.id) { assert EntrySafe(c, d, e); }
  }

  lemma BeginsKnown(c: Codec, truth: Truth, d: Disk, ses: Session)
    requires Begins(c, truth, d, ses)
    ensures Loaded(c, ReadLines(d.log)) == Some(Known(c, d)) && Entries(c, d.log) <= Known(c, d)
    ensures Truthful(c, truth, Entries(c, d.log)) && Truthful(c, truth, Known(c, d))
    ensures DistinctEntryIds(Known(c, d)) && IdsWritable(Known(c, d))
  {
    hide Safe, IndexSafe, Truthful, Loaded, ReadLines, Scanned, SnapshotRuns, Entries, Known, TreeOk;
    KnownLoads(c, d);
  }

  lemma BeginsGood(c: Codec, truth: Truth, d: Disk, ses: Session)
    requires Begins(c, truth, d, ses)
    ensures GoodScan(c, truth, Known(c, d), ses.hashed, ses.tree, ses.snap)
    ensures DistinctSnapPaths(ses.snap)
  {
    BeginsKnown(c, truth, d, ses);
    hide Safe, IndexSafe, AllTrue, IdsLeft, IdChosen, SnapshotRuns, Known, Loaded, ReadLines, AllFit, IdsWritable,
         DistinctEntryIds;
  }

  lemma SnapLine(c: Codec, truth: Truth, d: Disk, ses: Session, i: nat)
    requires Begins(c, truth, d, ses) && i < |ses.snap|
    ensures |ses.snap| == |ses.tree| && LineFor(ses.snap[i], ses.tree[i])
    ensures Contents(ses.tree, ses.snap[i].path) == ses.tree[i].data
  {
    hide Settled, IdChosen, SnapshotRuns, Loaded, ReadLines, Objects, Contents, NextId;
    ContentsAt(ses.tree, i);
  }

  /** An object of the session is what some file of the tree holds, under the file's id. */
  lemma ObjectOfFile(c: Codec, truth: Truth, d: Disk, ses: Session, o: Obj) returns (i: nat)
    requires Begins(c, truth, d, ses) && o in Objects(ses)
    ensures i < |ses.tree| == |ses.snap| && o.id == ses.snap[i].id
    ensures o == Obj(ses.snap[i].id, ses.tree[i].path, ses.tree[i].data, ses.tree[i].mtime)
  {
    BeginsGood(c, truth, d, ses);
    CollectedExactly(ses.snap, Reader(ses.tree));
    hide Begins, GoodScan, Collected, Reader, Contents;
    var j: nat :| Represents(ses.snap, Reader(ses.tree), j, o);
    i := j;
    SnapLine(c, truth, d, ses, i);
  }

  lemma ObjectsDistinct(c: Codec, truth: Truth, d: Disk, ses: Session)
    requires Begins(c, truth, d, ses)
    ensures DistinctIds(Objects(ses)) && DistinctPaths(Objects(ses))
    ensures forall i :: 0 <= i < |ses.snap| ==> exists o :: o in Objects(ses) && o.id == ses.snap[i].id
  {
    BeginsGood(c, truth, d, ses);
    hide Begins, GoodScan, DistinctSnapPaths;
    CollectedExactly(ses.snap, Reader(ses.tree));
    CollectedPaths(ses.snap, Reader(ses.tree));
  }

  lemma StoresObject(c: Codec, base: seq<Entry>, objs: seq<Obj>, e: Entry) returns (o: Obj)
    requires Stores(c, base, objs, e)
    ensures o in objs && !HasId(base, o.id) && e == EntryFor(c, e.pack, o)
  {
    hide HasId;
    o :| o in Missing(base, objs) && e == EntryFor(c, e.pack, o);
  }

  lemma ObjectTrue(c: Codec, truth: Truth, d: Disk, ses: Session, i: nat, e: Entry)
    requires Begins(c, truth, d, ses) && i < |ses.tree| && |ses.tree| == |ses.snap|
    requires e == EntryFor(c, e.pack, Obj(ses.snap[i].id, ses.tree[i].path, ses.tree[i].data, ses.tree[i].mtime))
    ensures EntryTrue(c, truth, e) && Fits(e.size, e.mtime) && EntryFits(c, e, ses.tree[i].data)
  {
    hide Settled, Scanned, SnapshotRuns, Loaded, ReadLines, Objects, NextId;
  }

  lemma SmallId(es: seq<Entry>, id: string)
    requires IdsLeft(es) && HasId(es, id)
    ensures Number(id).Some? ==> Number(id).value < UINT64_MAX
  {
    hide Number;
    HasIdMeans(es, id);
    var e :| e in es && e.id == id;
  }

  lemma ScannedIdSmall(c: Codec, truth: Truth, d: Disk, ses: Session, i: nat)
    requires Begins(c, truth, d, ses) && i < |ses.tree| == |ses.snap|
    ensures Number(ses.snap[i].id).Some? ==> Number(ses.snap[i].id).value < UINT64_MAX
  {
    var es := Known(c, d);
    BeginsGood(c, truth, d, ses);
    assert NextId(es) + |ses.tree| <= UINT64_MAX;
    if HasId(es, ses.snap[i].id) {
      SmallId(es, ses.snap[i].id);
    } else {
      NewFirst(c, truth, es, ses.hashed, ses.tree, ses.snap, i);
      NumberOfFormat(NewNumber(c, es, ses.hashed, ses.tree, EarliestName(ses.tree, i)));
    }
    hide Begins, IsNew, FormatId, NextId, Number, IdChosen, HasId, Known, AllTrue, Honest, IdsWritable,
         DistinctEntryIds, IdsLeft, NewNumber, EarliestName, Scanned, Sound;
  }

  /** An entry a session adds tells the truth, has a small number, and describes every file of its id. */
  lemma NewEntry(c: Codec, truth: Truth, d: Disk, ses: Session, e: Entry)
    requires Begins(c, truth, d, ses) && Stores(c, Entries(c, d.log), Objects(ses), e)
    ensures EntryTrue(c, truth, e) && Fits(e.size, e.mtime)
    ensures Number(e.id).Some? ==> Number(e.id).value < UINT64_MAX
    ensures |ses.snap| == |ses.tree|
    ensures forall i :: 0 <= i < |ses.tree| && ses.snap[i].id == e.id ==> EntryFits(c, e, ses.tree[i].data)
  {
    hide *;
    var o := StoresObject(c, Entries(c, d.log), Objects(ses), e);
    var j := ObjectOfFile(c, truth, d, ses, o);
    EntryForId(c, e, o);
    ObjectTrue(c, truth, d, ses, j, e);
    ScannedIdSmall(c, truth, d, ses, j);
    BeginsGood(c, truth, d, ses);
    forall i | 0 <= i < |ses.tree| && ses.snap[i].id == e.id ensures EntryFits(c, e, ses.tree[i].data) {
      OneContentPerId(c, truth, Known(c, d), ses.hashed, ses.tree, ses.snap, i, j);
    }
  }

  /** Old entries or new: the index after the session is `es`, all lines of which store something. */
  ghost predicate Grown(c: Codec, base: seq<Entry>, objs: seq<Obj>, es: seq<Entry>) {
    base <= es && forall e :: e in es ==> e in base || Stores(c, base, objs, e)
  }

  lemma GrownMeans(c: Codec, base: seq<Entry>, objs: seq<Obj>, t: Disk)
    requires GrownFrom(c, base, objs, t)
    ensures Grown(c, base, objs, Entries(c, t.log))
  {
    hide Stores, Entries;
    var es := Entries(c, t.log);
    forall e | e in es ensures e in base || Stores(c, base, objs, e) {
      var i :| 0 <= i < |es| && es[i] == e;
      if i < |base| { assert base[i] == e; } else { assert es[|base|..][i - |base|] == e; }
    }
  }

  lemma GrownTruthful(c: Codec, truth: Truth, d: Disk, ses: Session, es: seq<Entry>)
    requires Begins(c, truth, d, ses) && Grown(c, Entries(c, d.log), Objects(ses), es)
    ensures Truthful(c, truth, es)
  {
    BeginsKnown(c, truth, d, ses);
    hide Begins, Stores, EntryTrue, Number, Fits, Objects, Entries, Known, DistinctEntryIds, IdsWritable;
    forall e | e in es
      ensures EntryTrue(c, truth, e) && Fits(e.size, e.mtime)
      ensures Number(e.id).Some? ==> Number(e.id).value < UINT64_MAX
    {
      if e !in Entries(c, d.log) { NewEntry(c, truth, d, ses, e); }
    }
  }

  /** The entry of a file's id, old or new, describes the bytes the file has. */
  lemma EntryOfFile(c: Codec, truth: Truth, d: Disk, ses: Session, es: seq<Entry>, i: nat, e: Entry)
    requires Begins(c, truth, d, ses) && Grown(c, Entries(c, d.log), Objects(ses), es)
    requires i < |ses.tree| == |ses.snap| && e in es && e.id == ses.snap[i].id
    ensures EntryFits(c, e, ses.tree[i].data)
  {
    BeginsGood(c, truth, d, ses);
    BeginsKnown(c, truth, d, ses);
    hide Begins, GoodScan, Stores, EntryFits, Objects, Entries, Known, Truthful, DistinctEntryIds, IdsWritable;
    if e in Entries(c, d.log) {
      assert e in Known(c, d);
      EntryOfScanned(c, truth, Known(c, d), ses.hashed, ses.tree, ses.snap, i, e);
    } else {
      NewEntry(c, truth, d, ses, e);
    }
  }

  lemma GrownKept(c: Codec, truth: Truth, d: Disk, ses: Session, es: seq<Entry>)
    requires Begins(c, truth, d, ses) && Grown(c, Entries(c, d.log), Objects(ses), es)
    requires forall o :: o in Objects(ses) ==> HasId(es, o.id)
    ensures Kept(c, es, ses)
  {
    ObjectsDistinct(c, truth, d, ses);
    SameLength(c, truth, d, ses);
    hide Begins, Stores, EntryFits, HasId, Objects, Entries, Grown;
    forall i | 0 <= i < |ses.tree|
      ensures ses.snap[i].path == ses.tree[i].path && HasBytes(c, es, ses.snap[i].id, ses.tree[i].data)
    {
      SnapLine(c, truth, d, ses, i);
      var o :| o in Objects(ses) && o.id == ses.snap[i].id;
      HasIdMeans(es, o.id);
      var e :| e in es && e.id == o.id;
      EntryOfFile(c, truth, d, ses, es, i, e);
    }
  }

  lemma SameLength(c: Codec, truth: Truth, d: Disk, ses: Session)
    requires Begins(c, truth, d, ses)
    ensures |ses.snap| == |ses.tree|
  {
    hide Settled, IdChosen, SnapshotRuns, Loaded, ReadLines, Objects, NextId, TreeOk;
  }

  /** A session leaves the repository settled and no earlier entry lost, and, if it finished, every file of its tree
      kept.  Only where it is abandoned is it needed that a torn line cannot be read. */
  lemma SessionSettles(c: Codec, truth: Truth, d: Disk, ses: Session)
    requires Begins(c, truth, d, ses) && (TornUnreadable(c) || Finished(c, d, ses))
    ensures var t := AfterSession(c, d, ses);
            && Settled(c, truth, t) && Entries(c, d.log) <= Entries(c, t.log)
            && (Finished(c, d, ses) ==> Kept(c, Entries(c, t.log), ses))
  {
    hide *;
    var objs, t := Objects(ses), AfterSession(c, d, ses);
    BeginsRuns(c, truth, d, ses);
    RunsGrow(c, d, ses.runs, objs);
    GrownMeans(c, Entries(c, d.log), objs, t);
    GrownTruthful(c, truth, d, ses, Entries(c, t.log));
    GrownIsLonger(c, Entries(c, d.log), objs, Entries(c, t.log));
    if Finished(c, d, ses) {
      FinishedKeeps(c, truth, d, ses);
      TerminatedSettled(c, truth, t);
    } else if ses.runs == [] {
      NoRuns(c, d, objs);
      BeginsSettled(c, truth, d, ses);
    } else {
      AbandonedReads(c, truth, d, ses);
      SettledIf(c, truth, t);
    }
  }

  lemma GrownIsLonger(c: Codec, base: seq<Entry>, objs: seq<Obj>, es: seq<Entry>)
    requires Grown(c, base, objs, es)
    ensures base <= es
  {}

  /** A session that finished has its tree kept, and leaves the index with a last line that is whole. */
  lemma FinishedKeeps(c: Codec, truth: Truth, d: Disk, ses: Session)
    requires Begins(c, truth, d, ses) && Finished(c, d, ses)
    ensures var t := AfterSession(c, d, ses); Terminated(t.log) && Kept(c, Entries(c, t.log), ses)
  {
    hide *;
    var objs, t := Objects(ses), AfterSession(c, d, ses);
    BeginsRuns(c, truth, d, ses);
    FinishedMeans(c, d, ses);
    var init, run := ses.runs[..|ses.runs| - 1], ses.runs[|ses.runs| - 1];
    ResumedExactlyOnce(c, d, ses.runs, objs);
    LastSnapshotRun(c, d, ses.runs, objs);
    RunsGrow(c, d, init, objs);
    FinishedTerminated(c, PlayFrom(c, d, init), run);
    GrownMeans(c, Entries(c, d.log), objs, t);
    GrownKept(c, truth, d, ses, Entries(c, t.log));
  }

  lemma FinishedMeans(c: Codec, d: Disk, ses: Session)
    requires Finished(c, d, ses)
    ensures ses.runs != [] && Finishes(c, PlayFrom(c, d, ses.runs[..|ses.runs| - 1]), ses.runs[|ses.runs| - 1])
  {}

  /** A session whose last run crashed leaves an index that cannot be read, or reads as at another step of that run. */
  lemma AbandonedReads(c: Codec, truth: Truth, d: Disk, ses: Session)
    requires Begins(c, truth, d, ses) && TornUnreadable(c) && ses.runs != []
    ensures var t := AfterSession(c, d, ses);
            Loaded(c, ReadLines(t.log)) == None || (IndexSafe(c, Closed(t)) && Truthful(c, truth, Known(c, t)))
  {
    hide *;
    var objs, t := Objects(ses), AfterSession(c, d, ses);
    BeginsRuns(c, truth, d, ses);
    var init, run := ses.runs[..|ses.runs| - 1], ses.runs[|ses.runs| - 1];
    var s := PlayFrom(c, d, init);
    LastSnapshotRun(c, d, ses.runs, objs);
    RunsGrow(c, d, init, objs);
    RunEndsInAState(c, s, run);
    RunCloses(c, s, run, t);
    ClosedInMeans(c, t, RunStates(c, s, run));
    if Closed(t) in RunStates(c, s, run) {
      RunKeepsSafe(c, s, run, Closed(t));
      SafeIsIndexSafe(c, Closed(t));
      RunGrownFrom(c, Entries(c, d.log), objs, s, run, Closed(t));
      GrownMeans(c, Entries(c, d.log), objs, Closed(t));
      GrownTruthful(c, truth, d, ses, Entries(c, Closed(t).log));
      KnownIs(c, t);
    }
  }

  lemma ClosedInMeans(c: Codec, s: Disk, states: seq<Disk>)
    requires ClosedIn(c, s, states)
    ensures Loaded(c, ReadLines(s.log)) == None || Closed(s) in states
  {}

  lemma SafeIsIndexSafe(c: Codec, d: Disk)
    requires Safe(c, d)
    ensures IndexSafe(c, d)
  {}

  lemma KnownIs(c: Codec, d: Disk)
    ensures Known(c, d) == Entries(c, Closed(d).log)
  {}

  /** Closing an index adds at most an entry. */
  lemma EntriesKnown(c: Codec, d: Disk)
    ensures Entries(c, d.log) <= Known(c, d)
  {
    if !Terminated(d.log) {
      ClosedLines(d.log);
      var lines := Lines(Whole(d.log));
      assert lines[..|lines| - 1] == Lines(d.log);
    }
  }

  lemma TerminatedSettled(c: Codec, truth: Truth, t: Disk)
    requires Safe(c, t) && Terminated(t.log) && Truthful(c, truth, Entries(c, t.log))
    ensures Settled(c, truth, t)
  {
    assert Closed(t) == t;
    hide Truthful, IndexSafe, Entries, Loaded, ReadLines;
  }

  lemma SettledIf(c: Codec, truth: Truth, t: Disk)
    requires Safe(c, t) && Truthful(c, truth, Entries(c, t.log))
    requires Loaded(c, ReadLines(t.log)) == None || (IndexSafe(c, Closed(t)) && Truthful(c, truth, Known(c, t)))
    ensures Settled(c, truth, t)
  {
    EntriesKnown(c, t);
    hide Truthful, IndexSafe, Entries, Loaded, ReadLines, Known, Safe;
  }

  lemma BeginsSettled(c: Codec, truth: Truth, d: Disk, ses: Session)
    requires Begins(c, truth, d, ses)
    ensures Settled(c, truth, d)
  {}

  lemma BeginsRuns(c: Codec, truth: Truth, d: Disk, ses: Session)
    requires Begins(c, truth, d, ses)
    ensures Sound(c) && Safe(c, d) && SnapshotRuns(c, d, ses.runs, Objects(ses))
    ensures AfterSession(c, d, ses) == PlayFrom(c, d, ses.runs)
  {}

  // ---------------------------------------------------------------- any number of sessions

  lemma LastSession(c: Codec, truth: Truth, sessions: seq<Session>)
    requires Sound(c) && ValidLife(c, truth, sessions) && sessions != []
    ensures var init, ses := sessions[..|sessions| - 1], sessions[|sessions| - 1];
            && ValidLife(c, truth, init) && ValidSession(c, truth, Lived(c, init), ses)
            && Lived(c, sessions) == AfterSession(c, Lived(c, init), ses)
  {}

  lemma BeginsIf(c: Codec, truth: Truth, d: Disk, ses: Session)
    requires Sound(c) && Settled(c, truth, d) && ValidSession(c, truth, d, ses)
    ensures Begins(c, truth, d, ses)
  {}

  lemma NewRepository(c: Codec, truth: Truth)
    ensures Settled(c, truth, Lived(c, []))
  {
    EmptySafe(c);
    TerminatedSettled(c, truth, EMPTY);
  }

  /** A tree that was scanned in an accepted shape. */
  ghost predicate Packed(c: Codec, es: seq<Entry>, ses: Session) {
    && Kept(c, es, ses) && DistinctSnapPaths(ses.snap) && AllPathsSafe(ses.snap)
    && OthersSafe(ses.others) && FilesApart(ses.snap, ses.others)
  }

  lemma KeptPaths(c: Codec, es: seq<Entry>, ses: Session)
    requires Kept(c, es, ses)
    ensures FilePaths(ses.snap) == TreePaths(ses.tree)
  {
    hide HasBytes;
  }

  lemma TreeShape(truth: Truth, tree: seq<FileStat>, others: Others)
    requires TreeOk(truth, tree, others)
    ensures OthersSafe(others) && Apart(TreePaths(tree) + others.links)
    ensures forall i :: 0 <= i < |tree| ==> Acceptable(tree[i].path)
  {
    hide Apart, Acceptable;
  }

  lemma BeginsTree(c: Codec, truth: Truth, d: Disk, ses: Session)
    requires Begins(c, truth, d, ses)
    ensures TreeOk(truth, ses.tree, ses.others)
  {
    hide TreeOk;
  }

  lemma PackedIf(c: Codec, truth: Truth, d: Disk, ses: Session, es: seq<Entry>)
    requires Begins(c, truth, d, ses) && Kept(c, es, ses)
    ensures Packed(c, es, ses)
  {
    hide Begins, GoodScan, TreeOk, Apart, Acceptable, HasBytes, DistinctSnapPaths, OthersSafe, FilePaths, TreePaths;
    BeginsGood(c, truth, d, ses);
    BeginsTree(c, truth, d, ses);
    TreeShape(truth, ses.tree, ses.others);
    KeptPaths(c, es, ses);
  }

  lemma PackedLonger(c: Codec, es: seq<Entry>, fs: seq<Entry>, ses: Session)
    requires Packed(c, es, ses) && es <= fs
    ensures Packed(c, fs, ses)
  {
    hide FilesApart;
    KeptLonger(c, es, fs, ses);
  }

  /** That a torn line cannot be read matters only if some snapshot was abandoned. */
  ghost predicate Assumed(c: Codec, sessions: seq<Session>) {
    Sound(c) && (TornUnreadable(c) || forall k :: 0 <= k < |sessions| ==> WasPacked(c, sessions, k))
  }

  lemma AssumedBefore(c: Codec, sessions: seq<Session>)
    requires Assumed(c, sessions) && sessions != []
    ensures Assumed(c, sessions[..|sessions| - 1])
    ensures TornUnreadable(c) || Finished(c, Lived(c, sessions[..|sessions| - 1]), sessions[|sessions| - 1])
    ensures forall k :: 0 <= k < |sessions| - 1 ==>
              (WasPacked(c, sessions, k) <==> WasPacked(c, sessions[..|sessions| - 1], k))
  {
    hide Finished, Lived, TornUnreadable, Sound;
    var n := |sessions| - 1;
    forall k | 0 <= k < n ensures WasPacked(c, sessions, k) <==> WasPacked(c, sessions[..n], k) {
      assert sessions[..n][..k] == sessions[..k];
    }
    assert WasPacked(c, sessions, n) <==> Finished(c, Lived(c, sessions[..n]), sessions[n]);
  }

  lemma LastWasPacked(c: Codec, sessions: seq<Session>, k: nat)
    requires k + 1 == |sessions|
    ensures WasPacked(c, sessions, k) <==> Finished(c, Lived(c, sessions[..|sessions| - 1]), sessions[|sessions| - 1])
  {}

  /** Equal ids mean equal bytes across all snapshots: however many sessions there were, finished or abandoned, the
      index holds for every file of every one that finished the bytes it had then. */
  lemma {:induction false} LifeSettles(c: Codec, truth: Truth, sessions: seq<Session>, k: nat)
    requires Assumed(c, sessions) && ValidLife(c, truth, sessions)
    ensures Sound(c) && Settled(c, truth, Lived(c, sessions))
    ensures k < |sessions| && WasPacked(c, sessions, k) ==> Packed(c, Entries(c, Lived(c, sessions).log), sessions[k])
  {
    hide *;
    AssumedSound(c, sessions);
    if sessions == [] {
      NewRepository(c, truth);
    } else {
      var init, ses := sessions[..|sessions| - 1], sessions[|sessions| - 1];
      var d := Lived(c, init);
      LastSession(c, truth, sessions);
      AssumedBefore(c, sessions);
      LifeSettles(c, truth, init, k);
      BeginsIf(c, truth, d, ses);
      SessionSettles(c, truth, d, ses);
      if k < |init| && WasPacked(c, sessions, k) {
        PackedLonger(c, Entries(c, d.log), Entries(c, Lived(c, sessions).log), sessions[k]);
      }
      if k == |init| && WasPacked(c, sessions, k) {
        LastWasPacked(c, sessions, k);
        PackedIf(c, truth, d, ses, Entries(c, Lived(c, sessions).log));
      }
    }
  }

  lemma AssumedSound(c: Codec, sessions: seq<Session>)
    requires Assumed(c, sessions)
    ensures Sound(c)
  {}

  // ---------------------------------------------------------------- bytes come back

  /** The destination holds the tree's files: the same paths, each with the same bytes. */
  ghost predicate TreeBack(tree: seq<FileStat>, dest: map<Bytes, Bytes>) {
    && (forall x :: x in dest <==> exists i :: 0 <= i < |tree| && tree[i].path == x)
    && (forall i :: 0 <= i < |tree| ==> tree[i].path in dest && dest[tree[i].path] == tree[i].data)
  }

  lemma PackedReady(c: Codec, t: Disk, ses: Session)
    requires Sound(c) && IndexSafe(c, Closed(t)) && Packed(c, Known(c, t), ses)
    ensures Restorable(c, t, ses.snap, ses.others)
  {
    hide IndexSafe, Sound, Acceptable, EntryFits, Known, FilesApart;
    forall i | 0 <= i < |ses.snap| ensures HasId(Known(c, t), ses.snap[i].id) {
      assert HasBytes(c, Known(c, t), ses.snap[i].id, ses.tree[i].data);
      HasIdMeans(Known(c, t), ses.snap[i].id);
    }
  }

  lemma RestoredComesBack(c: Codec, es: seq<Entry>, ses: Session, dest: map<Bytes, Bytes>)
    requires Sound(c) && Packed(c, es, ses) && Restored(c, es, ses.snap, dest)
    ensures TreeBack(ses.tree, dest)
  {
    hide EntryFits, Acceptable, Sound;
    var snap, tree := ses.snap, ses.tree;
    forall i | 0 <= i < |tree| ensures tree[i].path in dest && dest[tree[i].path] == tree[i].data {
      assert HasBytes(c, es, snap[i].id, tree[i].data);
      var e :| e in es && e.id == snap[i].id && EntryFits(c, e, tree[i].data);
      SameDescription(c, e, tree[i].data, dest[snap[i].path]);
    }
    forall x | x in dest ensures exists i :: 0 <= i < |tree| && tree[i].path == x {
      var i :| 0 <= i < |snap| && snap[i].path == x;
      assert tree[i].path == x;
    }
  }

  lemma UnreadableTorn(c: Codec, t: Disk)
    requires Sound(c) && Safe(c, t)
    ensures Loaded(c, ReadLines(t.log)) == None ==> !Terminated(t.log)
  {
    if Terminated(t.log) {
      SafeWritable(c, t);
      WholeIndexLoads(c, t.log);
    }
  }

  lemma UnreadableRefused(c: Codec, log: Bytes, snap: seq<SnapFile>, others: Others)
    ensures Loaded(c, ReadLines(log)) == None ==> Refused(c, log, snap, others)
  {}

  lemma ReadableReady(c: Codec, base: Disk, t: Disk, ses: Session)
    requires Sound(c) && UnreadableOrSafe(c, base, t) && Packed(c, Entries(c, base.log), ses)
    ensures Loaded(c, ReadLines(t.log)) == None
            || (Restorable(c, t, ses.snap, ses.others) && Packed(c, Known(c, t), ses))
  {
    hide IndexSafe, Entries, Known, Packed, Restorable, Sound;
    if Loaded(c, ReadLines(t.log)) != None {
      PackedLonger(c, Entries(c, base.log), Known(c, t), ses);
      PackedReady(c, t, ses);
    }
  }

  /** Restoring a snapshot packed in `base` from a repository whose index, if it can be read, is safe and holds all
      that `base` did. */
  method RestorePacked(c: Codec, d: Disk, snap: seq<SnapFile>, others: Others, ghost base: Disk, ghost ses: Session)
    returns (rc: int, dest: map<Bytes, Bytes>)
    requires Sound(c) && UnreadableOrSafe(c, base, d) && Packed(c, Entries(c, base.log), ses)
    requires snap == ses.snap && others == ses.others
    ensures rc == 0 <==> Loaded(c, ReadLines(d.log)).Some?
    ensures rc == 0 ==> TreeBack(ses.tree, dest)
    ensures rc != 0 ==> rc == -1 && dest == map[]
  {
    hide *;
    UnreadableRefused(c, d.log, snap, others);
    ReadableReady(c, base, d, ses);
    rc, dest := TpRestore(c, d, snap, others);
    if Restorable(c, d, snap, others) && Packed(c, Known(c, d), ses) {
      RestoredComesBack(c, Known(c, d), ses, dest);
    }
    RestorableReads(c, d, snap, others);
  }

  lemma RestorableReads(c: Codec, d: Disk, snap: seq<SnapFile>, others: Others)
    ensures Restorable(c, d, snap, others) ==> Loaded(c, ReadLines(d.log)).Some?
  {
    hide Ready, FilesApart;
    if Restorable(c, d, snap, others) { ReadyMeans(c, d, snap); }
  }

  /** After any life of the repository, every snapshot in it whose runs went on to the end restores to exactly the files
      that were scanned, whatever became of the others.  Only if the last session was abandoned can the index be
      unreadable, and then restore refuses before anything is written. */
  method RestoreAny(c: Codec, d: Disk, snap: seq<SnapFile>, others: Others, ghost truth: Truth,
          ghost sessions: seq<Session>, ghost k: nat)
    returns (rc: int, dest: map<Bytes, Bytes>)
    requires Assumed(c, sessions) && ValidLife(c, truth, sessions) && k < |sessions| && WasPacked(c, sessions, k)
    requires d == Lived(c, sessions) && snap == sessions[k].snap && others == sessions[k].others
    ensures rc == 0 <==> Loaded(c, ReadLines(d.log)).Some?
    ensures rc == 0 ==> TreeBack(sessions[k].tree, dest)
    ensures rc != 0 ==> rc == -1 && dest == map[] && !WasPacked(c, sessions, |sessions| - 1)
  {
    hide *;
    LifeSettles(c, truth, sessions, k);
    SettledReads(c, truth, d);
    rc, dest := RestorePacked(c, d, snap, others, d, sessions[k]);
    PackedTerminated(c, truth, sessions);
    UnreadableTorn(c, d);
  }

  lemma SettledReads(c: Codec, truth: Truth, d: Disk)
    requires Settled(c, truth, d)
    ensures Safe(c, d) && UnreadableOrSafe(c, d, d)
  {}

  /** If the last session finished, the index ends in a whole line. */
  lemma PackedTerminated(c: Codec, truth: Truth, sessions: seq<Session>)
    requires Assumed(c, sessions) && ValidLife(c, truth, sessions) && sessions != []
    ensures WasPacked(c, sessions, |sessions| - 1) ==> Terminated(Lived(c, sessions).log)
  {
    hide *;
    var init, ses := sessions[..|sessions| - 1], sessions[|sessions| - 1];
    AssumedSound(c, sessions);
    LastSession(c, truth, sessions);
    AssumedBefore(c, sessions);
    LifeSettles(c, truth, init, 0);
    BeginsIf(c, truth, Lived(c, init), ses);
    LastWasPacked(c, sessions, |sessions| - 1);
    if WasPacked(c, sessions, |sessions| - 1) { FinishedKeeps(c, truth, Lived(c, init), ses); }
  }

  // ---------------------------------------------------------------- living one more session

  /** The run with a crash that never comes. */
  function Uninterrupted(c: Codec, d: Disk, run: Run): Run { run.(crash := RunLength(c, d, run)) }

  lemma UninterruptedSame(c: Codec, d: Disk, run: Run)
    ensures var whole := Uninterrupted(c, d, run);
            && whole.groups == run.groups && Uninterrupted(c, d, whole) == whole
            && (NumbersLast(whole) <==> NumbersLast(run))
            && FinalDisk(c, d, whole) == FinalDisk(c, d, run)
  {
    hide RecoveryLength, CommitsLength, AfterCommits, Recovered, NextNumber;
  }

  lemma UninterruptedRun(c: Codec, d: Disk, run: Run, whole: Run, objs: seq<Obj>)
    requires ValidRun(c, d, run) && PacksMissing(c, d, run, objs) && whole == Uninterrupted(c, d, run)
    ensures SnapshotRuns(c, d, [whole], objs) && Finishes(c, PlayFrom(c, d, [whole][..0]), whole)
  {
    assert [whole][..0] == [];
    assert PlayFrom(c, d, []) == d && SnapshotRuns(c, d, [], objs);
    hide RunStates, Recovered, Entries, AfterCommits, Fresh;
    SameStates(c, d, run, whole);
  }

  lemma SameStates(c: Codec, d: Disk, run: Run, whole: Run)
    requires whole == run.(crash := whole.crash)
    ensures RunStates(c, d, run) == RunStates(c, d, whole) && FinalDisk(c, d, run) == FinalDisk(c, d, whole)
  {}

  lemma PlayOneRun(c: Codec, d: Disk, run: Run)
    ensures PlayFrom(c, d, [run]) == AfterRun(c, d, run)
  {
    hide AfterRun;
    assert [run][..0] == [];
    assert PlayFrom(c, d, []) == d;
  }

  lemma UninterruptedEnds(c: Codec, d: Disk, run: Run)
    requires run == Uninterrupted(c, d, run)
    ensures AfterRun(c, d, run) == FinalDisk(c, d, run)
  {
    hide RunLength, FinalDisk, RunStates;
  }

  lemma LivedMore(c: Codec, sessions: seq<Session>, ses: Session)
    ensures Lived(c, sessions + [ses]) == PlayFrom(c, Lived(c, sessions), ses.runs)
  {
    hide PlayFrom;
    assert (sessions + [ses])[..|sessions|] == sessions;
  }

  /** A session with one uninterrupted run takes the repository to where that run does. */
  lemma AppendedLife(c: Codec, sessions: seq<Session>, ses: Session)
    requires |ses.runs| == 1 && ses.runs[0] == Uninterrupted(c, Lived(c, sessions), ses.runs[0])
    ensures Lived(c, sessions + [ses]) == FinalDisk(c, Lived(c, sessions), ses.runs[0])
  {
    hide *;
    assert ses.runs == [ses.runs[0]];
    LivedMore(c, sessions, ses);
    PlayOneRun(c, Lived(c, sessions), ses.runs[0]);
    UninterruptedEnds(c, Lived(c, sessions), ses.runs[0]);
  }

  lemma OneMoreSession(c: Codec, truth: Truth, sessions: seq<Session>, ses: Session)
    requires ValidLife(c, truth, sessions) && ValidSession(c, truth, Lived(c, sessions), ses)
    ensures ValidLife(c, truth, sessions + [ses])
  {
    hide ValidSession, PlayFrom;
    assert (sessions + [ses])[..|sessions|] == sessions;
  }

  lemma SessionIf(c: Codec, truth: Truth, d: Disk, ses: Session, es: seq<Entry>, run: Run)
    requires TreeOk(truth, ses.tree, ses.others)
    requires Loaded(c, ReadLines(d.log)) == Some(es) && NextId(es) + |ses.tree| <= UINT64_MAX
    requires Scanned(c, es, ses.hashed, ses.tree, ses.snap) && ses.runs == [run]
    requires SnapshotRuns(c, d, [run], Objects(ses)) && Finishes(c, PlayFrom(c, d, [run][..0]), run)
    ensures ValidSession(c, truth, d, ses) && Finished(c, d, ses)
  {
    hide TreeOk, Loaded, ReadLines, NextId, Scanned, SnapshotRuns, Objects, Finishes, PlayFrom;
  }

  lemma TreeOkFits(truth: Truth, tree: seq<FileStat>, others: Others)
    requires TreeOk(truth, tree, others)
    ensures TreeFits(tree)
  {
    hide Apart;
  }

  /** What a scan reads of a settled repository. */
  lemma SettledMeans(c: Codec, truth: Truth, d: Disk)
    requires Sound(c) && Settled(c, truth, d) && Loaded(c, ReadLines(d.log)).Some?
    ensures Loaded(c, ReadLines(d.log)) == Some(Known(c, d)) && AllFit(Known(c, d)) && IdsWritable(Known(c, d))
  {
    hide Safe, IndexSafe, AllTrue, IdsLeft, AllFit, Loaded, ReadLines, Entries, Known, DistinctEntryIds, IdsWritable;
    KnownLoads(c, d);
  }

  lemma SessionAppended(c: Codec, sessions: seq<Session>, ses: Session)
    ensures WasPacked(c, sessions + [ses], |sessions|) <==> Finished(c, Lived(c, sessions), ses)
  {
    assert (sessions + [ses])[..|sessions|] == sessions;
  }

  /** A scan, the collection of its objects and an uninterrupted pack run are one more session of the repository's life,
      one that finished; if the index cannot be read, the scan fails and nothing changes. */
  method BackUp(repo: Repo, c: Codec, tree: seq<FileStat>, others: Others, mode: HashMode,
          isStore: Obj -> bool, target: int, algo: Algo, mallocFails: (nat, nat) -> bool,
          ghost truth: Truth, ghost sessions: seq<Session>)
    returns (rc: int, ghost ses: Session)
    requires Assumed(c, sessions) && ValidLife(c, truth, sessions) && repo.State() == Lived(c, sessions)
    requires TreeOk(truth, tree, others) && NextId(Known(c, repo.State())) + |tree| <= UINT64_MAX
    requires 1 <= target <= INT64_MAX
    modifies repo
    ensures rc == -1 <==> Loaded(c, ReadLines(old(repo.log))) == None
    ensures rc == -1 ==> repo.State() == old(repo.State())
    ensures rc != -1 ==>
              && ses.tree == tree && ses.others == others && ses.hashed == Hashed(mode) && |ses.runs| == 1
              && repo.State() == Lived(c, sessions + [ses])
              && DividedAs(Missing(Entries(c, old(repo.log)), Objects(ses)), isStore, target, algo, ses.runs[0].groups)
              && (NumbersLast(ses.runs[0]) ==>
                    ValidLife(c, truth, sessions + [ses]) && WasPacked(c, sessions + [ses], |sessions|))
  {
    hide *;
    ghost var d := repo.State();
    LifeSettles(c, truth, sessions, 0);
    TreeOkFits(truth, tree, others);
    if Loaded(c, ReadLines(d.log)).Some? { SettledMeans(c, truth, d); }
    ghost var hashed := Hashed(mode);
    ses := Session(tree, others, hashed, [], []);
    var snap;
    rc, snap := TpScan(c, repo.log, mode, tree);
    if rc == -1 { return; }
    var objs := CollectObjects(snap, Reader(tree));
    ses := Session(tree, others, hashed, snap, []);
    ScannedObjects(c, truth, Known(c, d), ses);
    var packed, run, place, normal := repo.PackMulti(c, objs, isStore, target, algo, mallocFails);
    ghost var whole := Uninterrupted(c, d, run);
    DividedIf(Missing(Entries(c, d.log), objs), isStore, target, algo, place, normal, run.groups);
    UninterruptedSame(c, d, run);
    ses := Session(tree, others, hashed, snap, [whole]);
    SessionAppended(c, sessions, ses);
    AppendedLife(c, sessions, ses);
    if NumbersLast(whole) {
      UninterruptedRun(c, d, run, whole, objs);
      SessionIf(c, truth, d, ses, Known(c, d), whole);
      OneMoreSession(c, truth, sessions, ses);
    }
  }

  /** The packs are a division of the objects for this target and algorithm. */
  ghost predicate DividedAs(objs: seq<Obj>, isStore: Obj -> bool, target: int, algo: Algo, groups: seq<seq<Obj>>) {
    exists place, normal :: WellDivided(objs, Flags(objs, isStore), target, algo, place, normal, groups)
  }

  lemma DividedIf(objs: seq<Obj>, isStore: Obj -> bool, target: int, algo: Algo, place: seq<int>, normal: nat,
          groups: seq<seq<Obj>>)
    requires WellDivided(objs, Flags(objs, isStore), target, algo, place, normal, groups)
    ensures DividedAs(objs, isStore, target, algo, groups)
  {
    hide WellDivided;
  }

  lemma ScannedObjects(c: Codec, truth: Truth, es: seq<Entry>, ses: Session)
    requires Scanned(c, es, ses.hashed, ses.tree, ses.snap) && TreeOk(truth, ses.tree, ses.others) && IdsWritable(es)
    ensures DistinctIds(Objects(ses)) && DistinctPaths(Objects(ses)) && AllStorable(Objects(ses))
    ensures Objects(ses) == Collected(ses.snap, Reader(ses.tree))
    ensures forall runs :: Objects(Session(ses.tree, ses.others, ses.hashed, ses.snap, runs)) == Objects(ses)
  {
    hide IdChosen, Honest, OneContentPerInode, Acceptable, WritableFile, Contents, Apart;
    forall o | o in Objects(ses) ensures WritableObj(o) { ScannedStorable(c, truth, es, ses, o); }
    CollectedExactly(ses.snap, Reader(ses.tree));
    CollectedPaths(ses.snap, Reader(ses.tree));
  }

  lemma ScannedStorable(c: Codec, truth: Truth, es: seq<Entry>, ses: Session, o: Obj)
    requires Scanned(c, es, ses.hashed, ses.tree, ses.snap) && TreeOk(truth, ses.tree, ses.others) && IdsWritable(es)
    requires o in Objects(ses)
    ensures WritableObj(o)
  {
    CollectedExactly(ses.snap, Reader(ses.tree));
    var i: nat :| Represents(ses.snap, Reader(ses.tree), i, o);
    hide IdChosen, Honest, OneContentPerInode, Acceptable, Collected, Contents, Apart;
    ScannedIdWritable(c, es, ses.hashed, ses.tree, ses.snap, i);
    assert LineFor(ses.snap[i], ses.tree[i]);
    ContentsAt(ses.tree, i);
  }
}
