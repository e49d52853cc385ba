/** What a crash in the middle of an append leaves: an index that cannot be read, or one that a reader who does not
    insist on the last newline takes for that of a later step. */
module TornIndex {
  import opened Types
  import opened LineLog
  import opened OnDisk
  import opened Commit
  import opened Recovery
  import opened PackRun
  import opened ObjectIndex

  /** The index of `s` cannot be read, or what is read of it is the index of one of `states`. */
  ghost predicate ClosedIn(c: Codec, s: Disk, states: seq<Disk>) {
    Loaded(c, ReadLines(s.log)) == None || Closed(s) in states
  }

  // ---------------------------------------------------------------- where an append can stop

  lemma {:induction false} TextPrefix(lines: seq<Bytes>, k: nat)
    requires k <= |lines|
    ensures Text(lines[..k]) <= Text(lines)
  {
    if k == |lines| {
      assert lines[..k] == lines;
    } else {
      var n := |lines| - 1;
      TextPrefix(lines[..n], k);
      assert lines[..n][..k] == lines[..k];
    }
  }

  /** An append that stops after `p` bytes has written `k` whole lines and `r` bytes of the next. */
  lemma {:induction false} TornShape(lines: seq<Bytes>, p: nat) returns (k: nat, r: nat)
    requires p <= |Text(lines)|
    ensures k <= |lines| && (k == |lines| ==> r == 0) && (k < |lines| ==> r <= |lines[k]|)
    ensures Text(lines)[..p] == Text(lines[..k]) + if k < |lines| then lines[k][..r] else []
  {
    if p == |Text(lines)| {
      assert lines[..|lines|] == lines;
      return |lines|, 0;
    }
    var n := |lines| - 1;
    var init := Text(lines[..n]);
    if p <= |init| {
      k, r := TornShape(lines[..n], p);
      assert Text(lines)[..p] == init[..p];
      assert lines[..n][..k] == lines[..k];
      if k == n { assert lines[n][..0] == []; }
    } else {
      k, r := n, p - |init|;
      assert Text(lines)[..p] == init + lines[n][..r];
    }
  }

  lemma LineAppended(lines: seq<Bytes>, k: nat)
    requires k < |lines|
    ensures Text(lines[..k + 1]) == Text(lines[..k]) + lines[k] + [NEWLINE]
  {
    assert lines[..k + 1][..k] == lines[..k];
  }

  /** A whole line but for its newline: closed, the log is that of the next step. */
  lemma AlmostWhole(base: Bytes, lines: seq<Bytes>, p: nat, k: nat)
    requires Terminated(base) && Plain(lines) && k < |lines| && lines[k] != []
    requires p <= |Text(lines)| && Text(lines)[..p] == Text(lines[..k]) + lines[k]
    ensures p < |Text(lines)| && Whole(base + Text(lines)[..p]) == base + Text(lines)[..p + 1]
  {
    LineAppended(lines, k);
    TextPrefix(lines, k + 1);
    var line := lines[k];
    assert line[|line| - 1] in line;
    var log := base + Text(lines)[..p];
    assert log[|log| - 1] == line[|line| - 1];
    assert p == |Text(lines[..k])| + |line|;
    assert Text(lines)[..p + 1] == Text(lines[..k + 1]);
    assert log + [NEWLINE] == base + (Text(lines)[..p] + [NEWLINE]);
  }

  lemma TornNotLoaded(c: Codec, lines: seq<Bytes>, e: Entry, r: nat)
    requires Sound(c) && TornUnreadable(c) && Writable(e) && 0 < r < |c.text(e)|
    ensures Loaded(c, lines + [c.text(e)[..r]]) == None
  {
    var torn := c.text(e)[..r];
    assert LineSound(c, e);
    assert torn[|torn| - 1] in c.text(e);
    assert Stripped(torn) == torn;
    assert (lines + [torn])[..|lines|] == lines;
    assert c.parse(torn) == None;
  }

  // ---------------------------------------------------------------- one commit

  lemma AppendedIsState(c: Codec, d: Disk, n: nat, objs: seq<Obj>, p: nat)
    requires p <= |IndexText(c, n, objs)|
    ensures Appended(c, d, n, objs, p) in CommitStates(c, d, n, objs)
  {
    var j := |objs| + 5 + p;
    hide Appended, IndexText;
    assert CommitStates(c, d, n, objs)[j] == CommitAt(c, d, n, objs, j) == Appended(c, d, n, objs, p);
  }

  lemma WholeIsClosed(c: Codec, s: Disk, states: seq<Disk>)
    requires Terminated(s.log) && s in states
    ensures ClosedIn(c, s, states)
  {
    assert Closed(s) == s;
    hide Loaded, ReadLines;
  }

  lemma AppendedCloses(c: Codec, d: Disk, n: nat, objs: seq<Obj>, p: nat)
    requires Sound(c) && TornUnreadable(c) && ReadyToCommit(c, d, n, objs) && p <= |IndexText(c, n, objs)|
    ensures ClosedIn(c, Appended(c, d, n, objs, p), CommitStates(c, d, n, objs))
  {
    hide *;
    var lines := Texts(c, EntriesFor(c, n, objs));
    ReadyTerminated(c, d, n, objs);
    AppendedLog(c, d, n, objs, p);
    NewLines(c, n, objs);
    var k, r := TornShape(lines, p);
    if k == |lines| || r == 0 {
      NothingTorn(c, d, n, objs, p, k);
    } else if r == |lines[k]| {
      LineNotTorn(c, d, n, objs, p, k, r);
    } else {
      LineTorn(c, d, n, objs, p, k, r);
    }
  }

  lemma ReadyTerminated(c: Codec, d: Disk, n: nat, objs: seq<Obj>)
    requires ReadyToCommit(c, d, n, objs)
    ensures Terminated(d.log) && AllStorable(objs) && n < PACK_LIMIT
  {}

  lemma AppendedLog(c: Codec, d: Disk, n: nat, objs: seq<Obj>, p: nat)
    requires p <= |IndexText(c, n, objs)|
    ensures IndexText(c, n, objs) == Text(Texts(c, EntriesFor(c, n, objs)))
    ensures Appended(c, d, n, objs, p).log == d.log + Text(Texts(c, EntriesFor(c, n, objs)))[..p]
  {}

  lemma EmptyRest(a: Bytes, b: Bytes)
    requires b == []
    ensures a + b == a
  {}

  lemma NothingTorn(c: Codec, d: Disk, n: nat, objs: seq<Obj>, p: nat, k: nat)
    requires Sound(c) && ReadyToCommit(c, d, n, objs) && p <= |IndexText(c, n, objs)| && k <= |objs|
    requires var lines := Texts(c, EntriesFor(c, n, objs));
             IndexText(c, n, objs)[..p] == Text(lines[..k]) + if k < |lines| then lines[k][..0] else []
    ensures ClosedIn(c, Appended(c, d, n, objs, p), CommitStates(c, d, n, objs))
  {
    var lines := Texts(c, EntriesFor(c, n, objs));
    ReadyTerminated(c, d, n, objs);
    NewLines(c, n, objs);
    AppendedLog(c, d, n, objs, p);
    AppendedIsState(c, d, n, objs, p);
    EmptyRest(Text(lines[..k]), if k < |lines| then lines[k][..0] else []);
    hide Lines, Texts, EntriesFor, IndexText, Sound, ReadyToCommit, Text, ClosedIn, Appended, CommitStates;
    PlainTake(lines, k);
    LinesOfText(d.log, lines[..k]);
    WholeIsClosed(c, Appended(c, d, n, objs, p), CommitStates(c, d, n, objs));
  }

  lemma PlainTake(lines: seq<Bytes>, k: nat)
    requires Plain(lines) && k <= |lines|
    ensures Plain(lines[..k])
  {}

  lemma NewLines(c: Codec, n: nat, objs: seq<Obj>)
    requires Sound(c) && AllStorable(objs) && n < PACK_LIMIT
    ensures AllWritable(EntriesFor(c, n, objs))
    ensures var lines := Texts(c, EntriesFor(c, n, objs));
            && |lines| == |objs| && Plain(lines)
            && forall k :: 0 <= k < |objs| ==> lines[k] == c.text(EntriesFor(c, n, objs)[k]) && lines[k] != []
  {
    var fs := EntriesFor(c, n, objs);
    EntriesWritable(c, n, objs);
    TextsPlain(c, fs);
    forall k | 0 <= k < |objs| ensures Texts(c, fs)[k] != [] { assert LineSound(c, fs[k]); }
  }

  lemma ClosedIsNext(c: Codec, d: Disk, n: nat, objs: seq<Obj>, p: nat)
    requires p < |IndexText(c, n, objs)|
    requires Whole(Appended(c, d, n, objs, p).log) == Appended(c, d, n, objs, p + 1).log
    ensures Closed(Appended(c, d, n, objs, p)) == Appended(c, d, n, objs, p + 1)
  {}

  lemma WholeSlice(line: Bytes)
    ensures line[..|line|] == line
  {}

  lemma LineNotTorn(c: Codec, d: Disk, n: nat, objs: seq<Obj>, p: nat, k: nat, r: nat)
    requires Sound(c) && ReadyToCommit(c, d, n, objs) && p <= |IndexText(c, n, objs)| && k < |objs|
    requires var lines := Texts(c, EntriesFor(c, n, objs));
             r == |lines[k]| && IndexText(c, n, objs)[..p] == Text(lines[..k]) + lines[k][..r]
    ensures ClosedIn(c, Appended(c, d, n, objs, p), CommitStates(c, d, n, objs))
  {
    hide *;
    var lines := Texts(c, EntriesFor(c, n, objs));
    ReadyTerminated(c, d, n, objs);
    NewLines(c, n, objs);
    WholeSlice(lines[k]);
    AppendedLog(c, d, n, objs, p);
    AlmostWhole(d.log, lines, p, k);
    AppendedLog(c, d, n, objs, p + 1);
    ClosedIsNext(c, d, n, objs, p);
    AppendedIsState(c, d, n, objs, p + 1);
    ClosedInIf(c, Appended(c, d, n, objs, p), CommitStates(c, d, n, objs));
  }

  lemma ClosedInIf(c: Codec, s: Disk, states: seq<Disk>)
    ensures Closed(s) in states || Loaded(c, ReadLines(s.log)) == None ==> ClosedIn(c, s, states)
  {}

  lemma PlainPart(lines: seq<Bytes>, k: nat)
    requires Plain(lines) && k < |lines|
    ensures Plain(lines[..k]) && NEWLINE !in lines[k]
  {}

  lemma WritableAt(es: seq<Entry>, k: nat)
    requires AllWritable(es) && k < |es|
    ensures Writable(es[k])
  {}

  lemma LineTorn(c: Codec, d: Disk, n: nat, objs: seq<Obj>, p: nat, k: nat, r: nat)
    requires Sound(c) && TornUnreadable(c) && ReadyToCommit(c, d, n, objs) && p <= |IndexText(c, n, objs)| && k < |objs|
    requires var lines := Texts(c, EntriesFor(c, n, objs));
             0 < r < |lines[k]| && IndexText(c, n, objs)[..p] == Text(lines[..k]) + lines[k][..r]
    ensures ClosedIn(c, Appended(c, d, n, objs, p), CommitStates(c, d, n, objs))
  {
    hide *;
    var lines := Texts(c, EntriesFor(c, n, objs));
    ReadyTerminated(c, d, n, objs);
    NewLines(c, n, objs);
    PlainPart(lines, k);
    WritableAt(EntriesFor(c, n, objs), k);
    LinesOfText(d.log, lines[..k]);
    var whole, torn := d.log + Text(lines[..k]), lines[k][..r];
    NoNewlineInPrefix(lines[k], r);
    TornReadLines(whole, torn);
    TornNotLoaded(c, Lines(whole), EntriesFor(c, n, objs)[k], r);
    AppendedLog(c, d, n, objs, p);
    Associative(d.log, Text(lines[..k]), torn);
    ClosedInIf(c, Appended(c, d, n, objs, p), CommitStates(c, d, n, objs));
  }

  lemma WritingTerminated(c: Codec, d: Disk, n: nat, objs: seq<Obj>, j: nat)
    requires ReadyToCommit(c, d, n, objs) && j < |objs| + 5
    ensures Terminated(CommitAt(c, d, n, objs, j).log)
  {
    hide CommitAt;
    WritingOnlyPack(c, d, n, objs, j);
  }

  lemma CommitCloses(c: Codec, d: Disk, n: nat, objs: seq<Obj>, s: Disk)
    requires Sound(c) && TornUnreadable(c) && ReadyToCommit(c, d, n, objs) && s in CommitStates(c, d, n, objs)
    ensures ClosedIn(c, s, CommitStates(c, d, n, objs))
  {
    hide *;
    var j := StateAt(c, d, n, objs, s);
    if j < |objs| + 5 {
      WritingTerminated(c, d, n, objs, j);
      WholeIsClosed(c, s, CommitStates(c, d, n, objs));
    } else {
      AppendingAt(c, d, n, objs, j);
      AppendedCloses(c, d, n, objs, j - |objs| - 5);
    }
  }

  // ---------------------------------------------------------------- a whole run

  lemma ClosedInMore(c: Codec, s: Disk, states: seq<Disk>, more: seq<Disk>)
    requires ClosedIn(c, s, states) && forall t :: t in states ==> t in more
    ensures ClosedIn(c, s, more)
  {}

  lemma FirstCommitStates(c: Codec, d: Disk, n: nat, groups: seq<seq<Obj>>)
    requires groups != []
    ensures var k := |groups| - 1;
            && (forall s :: s in AllCommitStates(c, d, n, groups[..k]) ==> s in AllCommitStates(c, d, n, groups))
            && (forall s :: s in CommitStates(c, AfterCommits(c, d, n, groups[..k]), n + k, groups[k])
                  ==> s in AllCommitStates(c, d, n, groups))
  {
    hide CommitStates, AfterCommits;
  }

  lemma {:induction false} CommitsClose(c: Codec, d: Disk, n: nat, groups: seq<seq<Obj>>, s: Disk)
    requires Sound(c) && TornUnreadable(c) && ReadyToRun(c, d, n, groups) && s in AllCommitStates(c, d, n, groups)
    ensures ClosedIn(c, s, AllCommitStates(c, d, n, groups))
  {
    hide *;
    if groups == [] {
      NoCommits(c, d, n);
    } else {
      var k := |groups| - 1;
      var t := AfterCommits(c, d, n, groups[..k]);
      ReadyForLast(c, d, n, groups);
      CommitsKeepSafe(c, d, n, groups[..k]);
      LastReady(c, d, n, groups);
      LastCommitStates(c, d, n, groups);
      FirstCommitStates(c, d, n, groups);
      if s in AllCommitStates(c, d, n, groups[..k]) {
        CommitsClose(c, d, n, groups[..k], s);
        ClosedInMore(c, s, AllCommitStates(c, d, n, groups[..k]), AllCommitStates(c, d, n, groups));
      } else {
        CommitCloses(c, t, n + k, groups[k], s);
        ClosedInMore(c, s, CommitStates(c, t, n + k, groups[k]), AllCommitStates(c, d, n, groups));
      }
    }
  }

  lemma RecoveryTerminated(c: Codec, d: Disk, order: seq<Name>, s: Disk)
    requires s in RecoveryStates(c, d, order)
    ensures Terminated(s.log)
  {
    hide Doomed, Repaired, Filtered;
    var j :| 0 <= j < RecoveryLength(c, d, order) && RecoveryStates(c, d, order)[j] == s;
    RepairedTerminated(d.log);
  }

  lemma RepairedTerminated(log: Bytes)
    ensures Terminated(Repaired(log))
  {}

  lemma StatesOfRun(c: Codec, d: Disk, run: Run)
    ensures forall s :: s in RunStates(c, d, run) <==>
              || s in RecoveryStates(c, d, run.dir)
              || s in AllCommitStates(c, Recovered(c, d, run.dir), NextNumber(run.dirAfter), run.groups)
  {
    hide RecoveryStates, AllCommitStates, Recovered;
  }

  /** At every step of a run the index is unreadable or reads like that of some step. */
  lemma RunCloses(c: Codec, d: Disk, run: Run, s: Disk)
    requires Sound(c) && TornUnreadable(c) && Safe(c, d) && ValidRun(c, d, run) && s in RunStates(c, d, run)
    ensures ClosedIn(c, s, RunStates(c, d, run))
  {
    hide *;
    StatesOfRun(c, d, run);
    if s in RecoveryStates(c, d, run.dir) {
      RecoveryTerminated(c, d, run.dir, s);
      WholeIsClosed(c, s, RunStates(c, d, run));
    } else {
      var r, n := Recovered(c, d, run.dir), NextNumber(run.dirAfter);
      RunReady(c, d, run);
      CommitsClose(c, r, n, run.groups, s);
      ClosedInMore(c, s, AllCommitStates(c, r, n, run.groups), RunStates(c, d, run));
    }
  }
}
