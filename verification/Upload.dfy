/** Copying the repository to a remote, part by part (`tp_upload`), between pack runs. */
module Upload {
  import opened Types
  import opened LineLog
  import opened OnDisk
  import opened PackRun

  datatype Part = Packs | Checksums | Snapshots | Objects

  /** The order of the copies: the index comes last. */
  const PARTS: seq<Part> := [Packs, Checksums, Snapshots, Objects]

  /** What the remote holds; the snapshots have no bearing on the index. */
  datatype Remote = Remote(packs: map<Name, File>, sums: seq<SumLine>, log: Bytes)

  const BARE := Remote(map[], [], [])

  /** How one copy command went: the pack files it transferred, whether it transferred the part's one file, and
      its exit status. A command that copies a directory transfers whole files and deletes nothing. */
  datatype Outcome = Outcome(files: set<Name>, whole: bool, status: int)

  /** What a step returns: 127 stands for a command that could not be run and becomes 2; -1 for one whose status
      could not be had. */
  function StepStatus(o: Outcome): (s: int)
    ensures s == 0 <==> o.status == 0
  {
    if o.status == 127 then 2 else o.status
  }

  /** Status 0 means that everything was transferred. */
  predicate Possible(d: Disk, part: Part, o: Outcome) {
    && o.files <= d.packs.Keys
    && (o.status == 0 ==> if part == Packs then o.files == d.packs.Keys else o.whole)
  }

  function Copied(d: Disk, r: Remote, part: Part, o: Outcome): Remote {
    match part
    case Packs => r.(packs := map n | n in r.packs.Keys + (o.files * d.packs.Keys) ::
                                if n in o.files && n in d.packs then d.packs[n] else r.packs[n])
    case Checksums => if o.whole then r.(sums := d.sums) else r
    case Snapshots => r
    case Objects => if o.whole then r.(log := d.log) else r
  }

  ghost predicate AllPossible(d: Disk, outcomes: seq<Outcome>) {
    |outcomes| == |PARTS| && forall i :: 0 <= i < |PARTS| ==> Possible(d, PARTS[i], outcomes[i])
  }

  /** How far an upload gets: up to and including the first copy that fails. */
  function Steps(outcomes: seq<Outcome>): (n: nat)
    ensures n <= |outcomes|
    ensures forall i :: 0 <= i < n - 1 ==> outcomes[i].status == 0
    ensures n < |outcomes| ==> n > 0 && outcomes[n - 1].status != 0
  {
    if outcomes == [] then 0
    else if outcomes[0].status != 0 then 1
    else 1 + Steps(outcomes[1..])
  }

  function CopiedParts(d: Disk, r: Remote, outcomes: seq<Outcome>, n: nat): Remote
    requires n <= |outcomes| && n <= |PARTS|
  {
    if n == 0 then r else Copied(d, CopiedParts(d, r, outcomes, n - 1), PARTS[n - 1], outcomes[n - 1])
  }

  function AfterUpload(d: Disk, r: Remote, outcomes: seq<Outcome>): Remote
    requires |outcomes| == |PARTS|
  {
    CopiedParts(d, r, outcomes, Steps(outcomes))
  }

  class Store {
    var packs: map<Name, File>
    var sums: seq<SumLine>
    var log: Bytes

    constructor ()
      ensures State() == BARE
    {
      packs, sums, log := map[], [], [];
    }

    ghost function State(): Remote
      reads this
    {
      Remote(packs, sums, log)
    }

    /** Runs one copy command. */
    method RunStep(d: Disk, part: Part, o: Outcome) returns (status: int)
      modifies this
      ensures State() == Copied(d, old(State()), part, o) && status == StepStatus(o)
    {
      match part {
        case Packs =>
          packs := map n | n in packs.Keys + (o.files * d.packs.Keys) ::
                     if n in o.files && n in d.packs then d.packs[n] else packs[n];
        case Checksums => if o.whole { sums := d.sums; }
        case Snapshots =>
        case Objects => if o.whole { log := d.log; }
      }
      status := StepStatus(o);
    }

    /** The copies in order, stopping at the first that fails, whose status is returned, or 2 if it has none. */
    method TpUpload(d: Disk, outcomes: seq<Outcome>) returns (rc: int)
      requires |outcomes| == |PARTS|
      modifies this
      ensures State() == AfterUpload(d, old(State()), outcomes)
      ensures rc == 0 <==> forall i :: 0 <= i < |outcomes| ==> outcomes[i].status == 0
      ensures var last := outcomes[Steps(outcomes) - 1].status;
              rc == if last < 0 || last == 127 then 2 else last
    {
      hide Copied;
      rc := 0;
      var i := 0;
      while i < |PARTS| && rc == 0
        invariant 0 <= i <= |PARTS| && State() == CopiedParts(d, old(State()), outcomes, i)
        invariant rc == 0 ==> forall j :: 0 <= j < i ==> outcomes[j].status == 0
        invariant rc != 0 ==> i > 0 && outcomes[i - 1].status != 0
        invariant rc != 0 ==> forall j :: 0 <= j < i - 1 ==> outcomes[j].status == 0
        invariant i > 0 ==> var last := outcomes[i - 1].status; rc == if last < 0 || last == 127 then 2 else last
      {
        var status := RunStep(d, PARTS[i], outcomes[i]);
        if status != 0 { rc := if status < 0 then 2 else status; }
        i := i + 1;
      }
      StepsUnique(outcomes, i);
    }
  }

  lemma StepsUnique(outcomes: seq<Outcome>, n: nat)
    requires n <= |outcomes| && forall i :: 0 <= i < n - 1 ==> outcomes[i].status == 0
    requires (n == |outcomes| && (n == 0 || outcomes[n - 1].status == 0)) || (n > 0 && outcomes[n - 1].status != 0)
    ensures Steps(outcomes) == n
  {}

  // ---------------------------------------------------------------- the remote never runs ahead

  /** Every complete line of the remote index is an entry of the local one whose archive and manifest are on
      the remote with the local contents, and listed there with their hashes. */
  ghost predicate RemoteSafe(c: Codec, d: Disk, r: Remote) {
    && Lines(r.log) == Texts(c, Entries(c, r.log)) && Entries(c, r.log) <= Entries(c, d.log)
    && forall e :: e in Entries(c, r.log) ==> Backed(c, d, r, Archive(e.pack)) && Backed(c, d, r, Manifest(e.pack))
  }

  predicate Mirrored(d: Disk, r: Remote, name: Name) {
    name in d.packs && name in r.packs && r.packs[name] == d.packs[name]
  }

  predicate Backed(c: Codec, d: Disk, r: Remote, name: Name) {
    Mirrored(d, r, name) && SumLine(c.digest(r.packs[name]), name) in r.sums
  }

  lemma BareSafe(c: Codec, d: Disk)
    ensures RemoteSafe(c, d, BARE)
  {}

  /** Local runs do not disturb it: what the remote index names is never changed locally. */
  lemma RunKeepsRemoteSafe(c: Codec, d: Disk, t: Disk, r: Remote)
    requires RemoteSafe(c, d, r) && Preserved(c, d, t)
    ensures RemoteSafe(c, t, r)
  {
    hide Lines, Texts;
    forall e | e in Entries(c, r.log) ensures Backed(c, t, r, Archive(e.pack)) && Backed(c, t, r, Manifest(e.pack)) {
      assert e in Entries(c, d.log);
    }
  }

  /** Once the packs are all there the index may follow. */
  ghost predicate PacksThere(d: Disk, r: Remote) { forall name :: name in d.packs ==> Mirrored(d, r, name) }

  lemma SafeListed(c: Codec, d: Disk, e: Entry)
    requires Safe(c, d) && e in Entries(c, d.log)
    ensures Archive(e.pack) in d.packs && SumLine(c.digest(d.packs[Archive(e.pack)]), Archive(e.pack)) in d.sums
    ensures Manifest(e.pack) in d.packs && SumLine(c.digest(d.packs[Manifest(e.pack)]), Manifest(e.pack)) in d.sums
  {
    assert EntrySafe(c, d, e);
  }

  /** Copying packs or checksums never takes anything from what the remote index names; the index may follow once both
      are there. */
  lemma CopyKeepsRemoteSafe(c: Codec, d: Disk, r: Remote, part: Part, o: Outcome)
    requires Safe(c, d) && RemoteSafe(c, d, r) && Possible(d, part, o)
    requires part == Objects ==> PacksThere(d, r) && r.sums == d.sums
    ensures RemoteSafe(c, d, Copied(d, r, part, o))
    ensures part == Packs && o.status == 0 ==> PacksThere(d, Copied(d, r, part, o))
    ensures part != Packs && PacksThere(d, r) ==> PacksThere(d, Copied(d, r, part, o))
    ensures part == Checksums && o.status == 0 ==> Copied(d, r, part, o).sums == d.sums
    ensures part != Checksums ==> Copied(d, r, part, o).sums == r.sums
  {
    hide Lines, Texts, Entries, Safe;
    var t := Copied(d, r, part, o);
    SafeLog(c, d);
    forall e | e in Entries(c, t.log) ensures Backed(c, d, t, Archive(e.pack)) && Backed(c, d, t, Manifest(e.pack)) {
      assert e in Entries(c, d.log);
      SafeListed(c, d, e);
    }
  }

  lemma SafeLog(c: Codec, d: Disk)
    requires Safe(c, d)
    ensures Lines(d.log) == Texts(c, Entries(c, d.log))
  {}

  /** What the copies start from, one after another: no step comes after one that failed. */
  lemma StepPossible(d: Disk, r: Remote, outcomes: seq<Outcome>, n: nat)
    requires AllPossible(d, outcomes) && 0 < n <= Steps(outcomes)
    ensures n <= |outcomes| == |PARTS| && Possible(d, PARTS[n - 1], outcomes[n - 1])
    ensures CopiedParts(d, r, outcomes, n)
            == Copied(d, CopiedParts(d, r, outcomes, n - 1), PARTS[n - 1], outcomes[n - 1])
    ensures if n == 1 then PARTS[n - 1] == Packs else PARTS[n - 1] != Packs && outcomes[0].status == 0
    ensures if n == 2 then PARTS[n - 1] == Checksums else PARTS[n - 1] != Checksums
    ensures n > 2 ==> outcomes[1].status == 0
    ensures PARTS[n - 1] == Objects ==> n == 4 && outcomes[2].status == 0
  {
    hide Copied, Possible, Steps;
  }

  lemma {:induction false} PartsKeepRemoteSafe(c: Codec, d: Disk, r: Remote, outcomes: seq<Outcome>, n: nat)
    requires Safe(c, d) && RemoteSafe(c, d, r) && AllPossible(d, outcomes) && n <= Steps(outcomes)
    ensures |outcomes| == |PARTS| && RemoteSafe(c, d, CopiedParts(d, r, outcomes, n))
    ensures n > 0 && outcomes[0].status == 0 ==> PacksThere(d, CopiedParts(d, r, outcomes, n))
    ensures n > 1 && outcomes[1].status == 0 ==> CopiedParts(d, r, outcomes, n).sums == d.sums
  {
    assert |outcomes| == |PARTS|;
    hide Copied, RemoteSafe, PacksThere, Safe, Possible, AllPossible, Steps;
    if n > 0 {
      StepPossible(d, r, outcomes, n);
      PartsKeepRemoteSafe(c, d, r, outcomes, n - 1);
      CopyKeepsRemoteSafe(c, d, CopiedParts(d, r, outcomes, n - 1), PARTS[n - 1], outcomes[n - 1]);
    }
  }

  /** Which parts an upload changes: the checksums if the packs went over without error, the index if packs, checksums
      and snapshots all did. */
  lemma UploadChanges(d: Disk, r: Remote, outcomes: seq<Outcome>)
    requires |outcomes| == 4
    ensures var t := AfterUpload(d, r, outcomes);
            && t.sums == (if outcomes[0].status == 0 && outcomes[1].whole then d.sums else r.sums)
            && t.log == (if outcomes[0].status == outcomes[1].status == outcomes[2].status == 0 && outcomes[3].whole
                         then d.log else r.log)
            && t.packs.Keys == r.packs.Keys + outcomes[0].files * d.packs.Keys
            && (forall name :: name in t.packs ==>
                  t.packs[name] ==
                  if name in outcomes[0].files && name in d.packs then d.packs[name] else r.packs[name])
  {
    assert PARTS[0] == Packs && PARTS[1] == Checksums && PARTS[2] == Snapshots && PARTS[3] == Objects;
    var n := Steps(outcomes);
    FirstFailure(outcomes, n);
    var a := CopiedParts(d, r, outcomes, 0);
    assert a == r;
    var b := CopiedParts(d, r, outcomes, 1);
    assert b == Copied(d, a, Packs, outcomes[0]);
    var e := CopiedParts(d, r, outcomes, 2);
    assert e == Copied(d, b, Checksums, outcomes[1]);
    var f := CopiedParts(d, r, outcomes, 3);
    assert f == e;
    assert n == 4 ==> CopiedParts(d, r, outcomes, n) == Copied(d, f, Objects, outcomes[3]);
    hide CopiedParts, Steps;
  }

  lemma FirstFailure(outcomes: seq<Outcome>, n: nat)
    requires |outcomes| == 4 && n == Steps(outcomes)
    ensures 1 <= n <= 4 && (n > 1 <==> outcomes[0].status == 0)
    ensures n > 2 <==> outcomes[0].status == outcomes[1].status == 0
    ensures n > 3 <==> outcomes[0].status == outcomes[1].status == outcomes[2].status == 0
  {}

  /** The remote read as a repository of its own. */
  function AsDisk(r: Remote): Disk { Disk(r.packs, r.sums, None, r.log) }

  /** What is backed is safe on the remote itself, checksum lines included. */
  lemma BackedIsSafe(c: Codec, d: Disk, r: Remote, e: Entry)
    requires EntrySafe(c, d, e) && Backed(c, d, r, Archive(e.pack)) && Backed(c, d, r, Manifest(e.pack))
    ensures EntrySafe(c, AsDisk(r), e)
  {}

  lemma PrefixDistinct(es: seq<Entry>, all: seq<Entry>)
    requires es <= all
    ensures DistinctEntryIds(all) ==> DistinctEntryIds(es)
    ensures DistinctPackPaths(all) ==> DistinctPackPaths(es)
  {
    assert forall i :: 0 <= i < |es| ==> es[i] == all[i];
  }

  /** A remote that never ran ahead is a repository whose index is safe. */
  lemma RemoteIsSafe(c: Codec, d: Disk, r: Remote)
    requires Safe(c, d) && RemoteSafe(c, d, r)
    ensures IndexSafe(c, AsDisk(r))
  {
    var es := Entries(c, r.log);
    PrefixDistinct(es, Entries(c, d.log));
    hide EntrySafe, Lines, Texts, Entries, Backed, DistinctEntryIds, DistinctPackPaths;
    forall e | e in es ensures EntrySafe(c, AsDisk(r), e) {
      assert e in Entries(c, d.log);
      BackedIsSafe(c, d, r, e);
    }
  }

  /** A pack run, crashed or finished, or an upload, whole or partial, with no pack running. */
  datatype Event = Pack(run: Run) | Copy(outcomes: seq<Outcome>)

  datatype Pair = Pair(local: Disk, remote: Remote)

  ghost predicate ValidEvent(c: Codec, s: Pair, e: Event) {
    match e
    case Pack(run) => ValidRun(c, s.local, run)
    case Copy(outcomes) => AllPossible(s.local, outcomes)
  }

  function AfterEvent(c: Codec, s: Pair, e: Event): Pair {
    match e
    case Pack(run) => s.(local := AfterRun(c, s.local, run))
    case Copy(outcomes) => if |outcomes| == |PARTS| then s.(remote := AfterUpload(s.local, s.remote, outcomes)) else s
  }

  function Replay(c: Codec, events: seq<Event>): Pair {
    if events == [] then Pair(EMPTY, BARE) else AfterEvent(c, Replay(c, events[..|events| - 1]), events[|events| - 1])
  }

  ghost predicate ValidEvents(c: Codec, events: seq<Event>) {
    events == []
    || (ValidEvents(c, events[..|events| - 1])
         && ValidEvent(c, Replay(c, events[..|events| - 1]), events[|events| - 1]))
  }

  lemma EventKeepsSafe(c: Codec, s: Pair, e: Event)
    requires Sound(c) && Safe(c, s.local) && RemoteSafe(c, s.local, s.remote) && ValidEvent(c, s, e)
    ensures var t := AfterEvent(c, s, e); Safe(c, t.local) && RemoteSafe(c, t.local, t.remote)
  {
    hide Safe, RemoteSafe, AfterRun, Preserved, CopiedParts, ValidRun, RunStates;
    match e {
      case Pack(run) =>
        RunEndsInAState(c, s.local, run);
        RunKeepsSafe(c, s.local, run, AfterRun(c, s.local, run));
        RunKeepsRemoteSafe(c, s.local, AfterRun(c, s.local, run), s.remote);
      case Copy(outcomes) =>
        PartsKeepRemoteSafe(c, s.local, s.remote, outcomes, Steps(outcomes));
    }
  }

  /** After any interleaving of pack runs, crashed anywhere, and uploads, cut off anywhere, every complete line of
      the remote index names a pack that is on the remote with the local bytes. */
  lemma {:induction false} EventsKeepSafe(c: Codec, events: seq<Event>)
    requires Sound(c) && ValidEvents(c, events)
    ensures var s := Replay(c, events); Safe(c, s.local) && RemoteSafe(c, s.local, s.remote)
  {
    hide Safe, RemoteSafe, AfterEvent, ValidEvent;
    if events == [] {
      EmptySafe(c);
      BareSafe(c, EMPTY);
    } else {
      EventsKeepSafe(c, events[..|events| - 1]);
      EventKeepsSafe(c, Replay(c, events[..|events| - 1]), events[|events| - 1]);
    }
  }

  /** At every step of every upload in such a history the remote index is safe by itself: each line is an entry whose
      pack is in place on the remote, listed with its current hashes, and holds the object. */
  lemma RemoteAlwaysSafe(c: Codec, events: seq<Event>, outcomes: seq<Outcome>, n: nat)
    requires Sound(c) && ValidEvents(c, events)
    ensures IndexSafe(c, AsDisk(Replay(c, events).remote))
    ensures var s := Replay(c, events);
            AllPossible(s.local, outcomes) && n <= Steps(outcomes) ==>
              IndexSafe(c, AsDisk(CopiedParts(s.local, s.remote, outcomes, n)))
  {
    hide *;
    var s := Replay(c, events);
    EventsKeepSafe(c, events);
    RemoteIsSafe(c, s.local, s.remote);
    if AllPossible(s.local, outcomes) && n <= Steps(outcomes) {
      PartsKeepRemoteSafe(c, s.local, s.remote, outcomes, n);
      RemoteIsSafe(c, s.local, CopiedParts(s.local, s.remote, outcomes, n));
    }
  }

  lemma {:induction false} AllCopied(d: Disk, r: Remote, outcomes: seq<Outcome>)
    requires AllPossible(d, outcomes) && forall i :: 0 <= i < |outcomes| ==> outcomes[i].status == 0
    ensures var t := AfterUpload(d, r, outcomes); t.sums == d.sums && t.log == d.log && PacksThere(d, t)
  {
    assert Steps(outcomes) == 4;
    var a := CopiedParts(d, r, outcomes, 1);
    var b := CopiedParts(d, r, outcomes, 2);
    var e := CopiedParts(d, r, outcomes, 3);
    assert PARTS[0] == Packs && PARTS[1] == Checksums && PARTS[2] == Snapshots && PARTS[3] == Objects;
    assert CopiedParts(d, r, outcomes, 0) == r;
    assert PacksThere(d, a);
    assert b == a.(sums := d.sums);
    assert e == b;
  }

  /** An upload that succeeds leaves a remote from which every object of the index can be had. */
  lemma CompleteUploadSafe(c: Codec, d: Disk, r: Remote, outcomes: seq<Outcome>)
    requires Safe(c, d) && AllPossible(d, outcomes) && forall i :: 0 <= i < |outcomes| ==> outcomes[i].status == 0
    ensures var t := AsDisk(AfterUpload(d, r, outcomes));
            Entries(c, t.log) == Entries(c, d.log) && forall e :: e in Entries(c, t.log) ==> EntrySafe(c, t, e)
  {
    AllCopied(d, r, outcomes);
    var t := AsDisk(AfterUpload(d, r, outcomes));
    hide AfterUpload, Entries, LogHolds;
    forall e | e in Entries(c, d.log) ensures EntrySafe(c, t, e) {
      assert EntrySafe(c, d, e);
      PackFrame(c, d, t, e.pack);
    }
  }

  /** The order matters: were the index copied to a bare remote first, and the upload cut off there, it would
      name packs that are not there. */
  lemma IndexFirstFails(c: Codec, d: Disk, o: Outcome)
    requires Safe(c, d) && Entries(c, d.log) != [] && o.whole
    ensures !RemoteSafe(c, d, Copied(d, BARE, Objects, o))
  {
    assert Entries(c, d.log)[0] in Entries(c, d.log);
  }
}
