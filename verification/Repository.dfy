/** The pack command as it works on the disk, step by step.

    `trace` records the disk after every step; a crash is the disk left as it was at some point of the trace. */
module Repository {
  import opened Types
  import opened Int64
  import opened LineLog
  import opened OnDisk
  import opened Commit
  import opened Recovery
  import opened PackRun
  import opened Resume
  import opened Layout

  lemma CommitTrace(c: Codec, d: Disk, n: nat, objs: seq<Obj>)
    ensures CommitStates(c, d, n, objs) ==
            seq(|objs| + 1, j requires 0 <= j < |objs| + 1 => Writing(d, n, objs, j))
            + [Renamed(d, n, objs), ManifestWritten(c, d, n, objs), ManifestRenamed(c, d, n, objs),
               Summed(c, d, n, objs, 1), Summed(c, d, n, objs, 2)]
            + seq(|IndexText(c, n, objs)|,
                  p requires 0 <= p < |IndexText(c, n, objs)| => Appended(c, d, n, objs, p + 1))
  {
    var a := seq(|objs| + 1, j requires 0 <= j < |objs| + 1 => Writing(d, n, objs, j));
    var b := [Renamed(d, n, objs), ManifestWritten(c, d, n, objs), ManifestRenamed(c, d, n, objs),
              Summed(c, d, n, objs, 1), Summed(c, d, n, objs, 2)];
    var e := seq(|IndexText(c, n, objs)|,
                 p requires 0 <= p < |IndexText(c, n, objs)| => Appended(c, d, n, objs, p + 1));
    assert d.log + IndexText(c, n, objs)[..0] == d.log;
    assert Appended(c, d, n, objs, 0) == Summed(c, d, n, objs, 2);
    hide Writing, Renamed, ManifestWritten, ManifestRenamed, Summed, Appended, IndexText;
    var m := |objs|;
    forall j | 0 <= j < CommitLength(c, n, objs) ensures CommitAt(c, d, n, objs, j) == (a + b + e)[j] {
      if j <= m {
        assert (a + b + e)[j] == a[j];
      } else if j <= m + 5 {
        assert (a + b + e)[j] == b[j - m - 1];
      } else {
        assert (a + b + e)[j] == e[j - m - 6];
      }
    }
  }

  /** The disk after the truncation and `j` unlinks. */
  lemma UnlinkedIs(c: Codec, d: Disk, order: seq<Name>, j: nat)
    requires j <= |Doomed(c, d, order)|
    ensures Unlinked(c, d, order, j) == TailRepaired(d).(packs := d.packs - Names(Doomed(c, d, order)[..j]))
    ensures j == 0 ==> Unlinked(c, d, order, j) == TailRepaired(d)
  {
    hide Doomed;
    assert d.packs - Names(Doomed(c, d, order)[..0]) == d.packs;
  }

  lemma RecoveryTrace(c: Codec, d: Disk, order: seq<Name>)
    ensures var doomed, t := Doomed(c, d, order), TailRepaired(d);
            RecoveryStates(c, d, order) ==
            [t] + seq(|doomed|, j requires 0 <= j < |doomed| => t.(packs := d.packs - Names(doomed[..j + 1])))
            + (if Stale(c, d, order)
               then [AllUnlinked(c, d, order).(sumsPart := Some(Filtered(c, d, order))), Recovered(c, d, order)]
               else [])
  {
    hide Doomed, TailRepaired, Unlinked, Stale, Filtered, Recovered, Names, AllUnlinked;
    var doomed, t := Doomed(c, d, order), TailRepaired(d);
    var a := seq(|doomed|, j requires 0 <= j < |doomed| => t.(packs := d.packs - Names(doomed[..j + 1])));
    var b := if Stale(c, d, order)
      then [AllUnlinked(c, d, order).(sumsPart := Some(Filtered(c, d, order))), Recovered(c, d, order)] else [];
    forall j | 0 <= j < RecoveryLength(c, d, order) ensures RecoveryAt(c, d, order, j) == ([t] + a + b)[j] {
      if j <= |doomed| { UnlinkedIs(c, d, order, j); }
    }
  }

  lemma CommitOneMore(c: Codec, d: Disk, n: nat, groups: seq<seq<Obj>>, b: nat)
    requires b < |groups|
    ensures var t := AfterCommits(c, d, n, groups[..b]);
            && AfterCommits(c, d, n, groups[..b + 1]) == Committed(c, t, n + b, groups[b])
            && AllCommitStates(c, d, n, groups[..b + 1])
               == AllCommitStates(c, d, n, groups[..b]) + CommitStates(c, t, n + b, groups[b])
  {
    assert groups[..b + 1][..b] == groups[..b];
  }

  /** The packs of the run are all numbered as far as directory scans recognise them. */
  predicate NumbersLast(run: Run) { NextNumber(run.dirAfter) + |run.groups| <= PACK_LIMIT }

  /** Recovery, a selection, a division and the commits make up one run that packs what was missing, valid as long as
      pack numbers last. */
  lemma WholeRun(c: Codec, d: Disk, r: Disk, run: Run, objs: seq<Obj>, newObjs: seq<Obj>, t: Disk)
    requires DistinctIds(objs) && DistinctPaths(objs) && AllStorable(objs)
    requires IsListing(run.dir, d.packs) && r == Recovered(c, d, run.dir) && IsListing(run.dirAfter, r.packs)
    requires newObjs == Missing(Entries(c, r.log), objs)
    requires multiset(Concat(run.groups)) == multiset(newObjs)
    requires t == AfterCommits(c, r, NextNumber(run.dirAfter), run.groups)
    ensures PacksMissing(c, d, run, objs) && t == FinalDisk(c, d, run)
    ensures ValidRun(c, d, run) <==> NumbersLast(run)
    ensures RunStates(c, d, run)
            == RecoveryStates(c, d, run.dir) + AllCommitStates(c, r, NextNumber(run.dirAfter), run.groups)
  {
    hide Recovered, Missing, Concat, Fresh;
    if NumbersLast(run) { SnapshotRunValid(c, d, run, objs); }
  }

  /** They do if one pack an object would not reach the end. */
  lemma FewObjectsLast(c: Codec, d: Disk, run: Run, objs: seq<Obj>)
    requires IsListing(run.dir, d.packs) && IsListing(run.dirAfter, Recovered(c, d, run.dir).packs)
    requires PacksMissing(c, d, run, objs) && forall b :: 0 <= b < |run.groups| ==> run.groups[b] != []
    requires |objs| < PACK_LIMIT && forall m: nat :: Archive(m) in d.packs ==> m + |objs| < PACK_LIMIT
    ensures NumbersLast(run)
  {
    var newObjs := Missing(Entries(c, Recovered(c, d, run.dir).log), objs);
    MissingNoMore(Entries(c, Recovered(c, d, run.dir).log), objs);
    NonEmptyRuns(run.groups);
    assert |Concat(run.groups)| == |multiset(newObjs)| == |newObjs|;
    var best := Best(run.dirAfter);
    hide Recovered, Missing, Concat, Entries;
    if best > 0 {
      assert Archive(best) in Recovered(c, d, run.dir).packs;
      RecoveredPacks(c, d, run.dir, Archive(best));
    }
  }

  /** The class of each object. */
  function Flags(objs: seq<Obj>, isStore: Obj -> bool): (flags: seq<bool>)
    ensures |flags| == |objs|
  {
    seq(|objs|, i requires 0 <= i < |objs| => isStore(objs[i]))
  }

  lemma {:induction false} MissingNoMore(es: seq<Entry>, objs: seq<Obj>)
    ensures |Missing(es, objs)| <= |objs|
  {
    if objs != [] { MissingNoMore(es, objs[..|objs| - 1]); }
  }

  class Repo {
    var packs: map<Name, File>
    var sums: seq<SumLine>
    var sumsPart: Option<seq<SumLine>>
    var log: Bytes
    ghost var trace: seq<Disk>

    constructor ()
      ensures State() == EMPTY && trace == []
    {
      packs, sums, sumsPart, log, trace := map[], [], None, [], [];
    }

    ghost function State(): (d: Disk)
      reads this
      ensures d == Disk(packs, sums, sumsPart, log)
    {
      Disk(packs, sums, sumsPart, log)
    }

    // -------------------------------------------------------------- single steps

    method Write(name: Name, file: File)
      modifies this
      ensures State() == old(State()).(packs := old(packs)[name := file]) && trace == old(trace) + [State()]
    {
      packs := packs[name := file];
      trace := trace + [State()];
    }

    method Rename(from: Name, to: Name)
      requires from in packs
      modifies this
      ensures State() == old(State()).(packs := (old(packs) - {from})[to := old(packs)[from]])
      ensures trace == old(trace) + [State()]
    {
      packs := (packs - {from})[to := packs[from]];
      trace := trace + [State()];
    }

    method Unlink(name: Name)
      modifies this
      ensures State() == old(State()).(packs := old(packs) - {name}) && trace == old(trace) + [State()]
    {
      packs := packs - {name};
      trace := trace + [State()];
    }

    /** `tp_checksums_append`: one line, written in one go. */
    method AppendSum(line: SumLine)
      modifies this
      ensures State() == old(State()).(sums := old(sums) + [line]) && trace == old(trace) + [State()]
    {
      sums := sums + [line];
      trace := trace + [State()];
    }

    method WriteSumsPart(lines: seq<SumLine>)
      modifies this
      ensures State() == old(State()).(sumsPart := Some(lines)) && trace == old(trace) + [State()]
    {
      sumsPart := Some(lines);
      trace := trace + [State()];
    }

    method RenameSums()
      requires sumsPart.Some?
      modifies this
      ensures State() == old(State()).(sums := old(sumsPart).value, sumsPart := None) && trace == old(trace) + [State()]
    {
      sums, sumsPart := sumsPart.value, None;
      trace := trace + [State()];
    }

    method Truncate(length: nat)
      requires length <= |log|
      modifies this
      ensures State() == old(State()).(log := old(log)[..length]) && trace == old(trace) + [State()]
    {
      log := log[..length];
      trace := trace + [State()];
    }

    method AppendByte(b: byte)
      modifies this
      ensures State() == old(State()).(log := old(log) + [b]) && trace == old(trace) + [State()]
    {
      log := log + [b];
      trace := trace + [State()];
    }

    // -------------------------------------------------------------- recovery

    method RepairTail()
      modifies this
      ensures State() == TailRepaired(old(State())) && trace == old(trace) + [State()]
    {
      var good := RepairIndexTail(log);
      assert log[..|good|] == good;
      Truncate(|good|);
    }

    /** The packs that index lines name, found by searching the text of each line. */
    method CollectIndexedPacks(c: Codec) returns (indexed: set<nat>)
      requires Terminated(log)
      ensures indexed == Indexed(c, Lines(log))
    {
      indexed := {};
      var lines := Lines(log);
      for i := 0 to |lines|
        invariant indexed == Indexed(c, lines[..i])
      {
        assert lines[..i + 1][..i] == lines[..i];
        match c.packOf(lines[i]) {
          case Some(n) => indexed := indexed + {n};
          case None =>
        }
      }
      assert lines[..|lines|] == lines;
    }

    /** Which names to delete, gathered before anything is deleted. */
    method GatherDoomed(order: seq<Name>, indexed: set<nat>) returns (doomed: seq<Name>)
      ensures doomed == ToDelete(order, indexed)
    {
      doomed := [];
      for i := 0 to |order|
        invariant doomed == ToDelete(order[..i], indexed)
      {
        assert order[..i + 1][..i] == order[..i];
        var name := order[i];
        if name.IsPart() {
          doomed := Add(doomed, name);
        } else if name.Archive? && name.n < PACK_LIMIT && name.n !in indexed {
          doomed := Add(doomed, name);
          doomed := Add(doomed, Manifest(name.n));
        }
      }
      assert order[..|order|] == order;
    }

    method UnlinkAll(doomed: seq<Name>, ghost d: Disk)
      requires State() == d
      modifies this
      ensures State() == d.(packs := d.packs - Names(doomed))
      ensures trace == old(trace) +
                seq(|doomed|, j requires 0 <= j < |doomed| => d.(packs := d.packs - Names(doomed[..j + 1])))
    {
      assert d.packs - Names(doomed[..0]) == d.packs;
      for i := 0 to |doomed|
        invariant State() == d.(packs := d.packs - Names(doomed[..i]))
        invariant trace == old(trace) + seq(i, j requires 0 <= j < i => d.(packs := d.packs - Names(doomed[..j + 1])))
      {
        Unlink(doomed[i]);
        assert Names(doomed[..i + 1]) == Names(doomed[..i]) + {doomed[i]};
        assert State().packs == d.packs - Names(doomed[..i + 1]);
      }
      assert doomed[..|doomed|] == doomed;
    }

    /** `rewrite_checksums_filtered`: drops the lines of files that are gone, rewriting only if there are any. */
    method RewriteChecksumsFiltered()
      modifies this
      ensures var kept := Listed(old(sums), old(packs));
              if |kept| == |old(sums)| then State() == old(State()) && trace == old(trace)
              else (State() == old(State()).(sums := kept, sumsPart := None)
                    && trace == old(trace) + [old(State()).(sumsPart := Some(kept)), State()])
    {
      var kept := [];
      for i := 0 to |sums|
        invariant State() == old(State()) && trace == old(trace)
        invariant kept == Listed(sums[..i], packs)
      {
        assert sums[..i + 1][..i] == sums[..i];
        if sums[i].name in packs { kept := kept + [sums[i]]; }
      }
      assert sums[..|sums|] == sums;
      if |kept| != |sums| {
        WriteSumsPart(kept);
        RenameSums();
      }
    }

    /** `recover_crashed_state` up to its last unlink, after the tail repair. */
    method RecoverPacks(c: Codec, order: seq<Name>, ghost d: Disk)
      requires State() == TailRepaired(d)
      modifies this
      ensures State() == AllUnlinked(c, d, order)
      ensures var doomed, t := Doomed(c, d, order), TailRepaired(d);
              trace == old(trace) +
                seq(|doomed|, j requires 0 <= j < |doomed| => t.(packs := d.packs - Names(doomed[..j + 1])))
    {
      LinesRepaired(d.log);
      var indexed := CollectIndexedPacks(c);
      var doomed := GatherDoomed(order, indexed);
      assert doomed == Doomed(c, d, order);
      hide Lines, Repaired, ToDelete, Indexed, Names;
      UnlinkAll(doomed, TailRepaired(d));
      assert doomed[..|doomed|] == doomed;
    }

    /** All of recovery, for one reading of the pack directory. */
    method Recover(c: Codec, order: seq<Name>)
      modifies this
      ensures State() == Recovered(c, old(State()), order)
      ensures trace == old(trace) + RecoveryStates(c, old(State()), order)
    {
      ghost var d, before := State(), trace;
      RecoveryTrace(c, d, order);
      hide RecoveryStates, RecoveryAt, Doomed, Listed, Repaired, Names;
      RepairTail();
      RecoverPacks(c, order, d);
      assert sums == d.sums && packs == AllUnlinked(c, d, order).packs;
      ghost var unlinked := trace;
      RewriteChecksumsFiltered();
      assert Stale(c, d, order) ==>
        trace == unlinked +
          [AllUnlinked(c, d, order).(sumsPart := Some(Filtered(c, d, order))), Recovered(c, d, order)];
      assert !Stale(c, d, order) ==> trace == unlinked + [];
    }

    // -------------------------------------------------------------- commit

    /** The archive under its scratch name, one object after another. */
    method WriteArchive(n: nat, objs: seq<Obj>)
      modifies this
      ensures State() == Writing(old(State()), n, objs, |objs|)
      ensures trace == old(trace) + seq(|objs| + 1, j requires 0 <= j < |objs| + 1 => Writing(old(State()), n, objs, j))
    {
      Write(ArchivePart(n), ArchiveFile([]));
      assert Members(objs[..0]) == [];
      for i := 0 to |objs|
        invariant State() == Writing(old(State()), n, objs, i)
        invariant trace == old(trace) + seq(i + 1, j requires 0 <= j < i + 1 => Writing(old(State()), n, objs, j))
      {
        Write(ArchivePart(n), ArchiveFile(Members(objs[..i]) + [Member(objs[i].path, objs[i].data)]));
        assert Members(objs[..i + 1]) == Members(objs[..i]) + [Member(objs[i].path, objs[i].data)];
      }
      assert objs[..|objs|] == objs;
    }

    /** `tp_index_append`: buffered writes, of which a crash can leave any byte prefix. */
    method IndexAppend(text: Bytes)
      modifies this
      ensures State() == old(State()).(log := old(log) + text)
      ensures trace == old(trace) +
                seq(|text|, p requires 0 <= p < |text| => old(State()).(log := old(log) + text[..p + 1]))
    {
      assert old(log) + text[..0] == old(log);
      for i := 0 to |text|
        invariant State() == old(State()).(log := old(log) + text[..i])
        invariant trace == old(trace) + seq(i, p requires 0 <= p < i => old(State()).(log := old(log) + text[..p + 1]))
      {
        AppendByte(text[i]);
        assert old(log) + text[..i] + [text[i]] == old(log) + text[..i + 1];
      }
      assert text[..|text|] == text;
    }

    /** One pack up to its checksum lines: scratch archive, rename, manifest, two lines. */
    method WriteFiles(c: Codec, n: nat, objs: seq<Obj>)
      modifies this
      ensures var d := old(State());
              && State() == Summed(c, d, n, objs, 2)
              && trace == old(trace) + seq(|objs| + 1, j requires 0 <= j < |objs| + 1 => Writing(d, n, objs, j))
                 + [Renamed(d, n, objs), ManifestWritten(c, d, n, objs), ManifestRenamed(c, d, n, objs),
                    Summed(c, d, n, objs, 1), Summed(c, d, n, objs, 2)]
    {
      ghost var d := State();
      WriteArchive(n, objs);
      assert objs[..|objs|] == objs;
      ghost var t := trace;
      Rename(ArchivePart(n), Archive(n));
      assert State() == Renamed(d, n, objs);
      Write(ManifestPart(n), ManifestOf(c, objs));
      assert State() == ManifestWritten(c, d, n, objs);
      Rename(ManifestPart(n), Manifest(n));
      assert State() == ManifestRenamed(c, d, n, objs);
      AppendSum(SumLine(c.digest(packs[Archive(n)]), Archive(n)));
      assert State() == Summed(c, d, n, objs, 1);
      AppendSum(SumLine(c.digest(packs[Manifest(n)]), Manifest(n)));
      assert State() == Summed(c, d, n, objs, 2);
    }

    /** One pack: its files and checksum lines, and last of all its index lines. */
    method WriteOnePackAndCommit(c: Codec, n: nat, objs: seq<Obj>)
      modifies this
      ensures State() == Committed(c, old(State()), n, objs)
      ensures trace == old(trace) + CommitStates(c, old(State()), n, objs)
    {
      ghost var d := State();
      CommitTrace(c, d, n, objs);
      var text := IndexText(c, n, objs);
      assert text[..|text|] == text;
      hide CommitStates, CommitAt, IndexText, Renamed, ManifestWritten, Writing;
      WriteFiles(c, n, objs);
      IndexAppend(text);
    }

    // -------------------------------------------------------------- a whole run

    /** Reads the pack directory, in whatever order it comes. */
    method ListPacks() returns (order: seq<Name>)
      ensures IsListing(order, packs)
    {
      order := [];
      var left := packs.Keys;
      while left != {}
        invariant left <= packs.Keys
        invariant forall name :: name in order <==> name in packs && name !in left
        invariant forall i, j :: 0 <= i < j < |order| ==> order[i] != order[j]
        decreases left
      {
        var name :| name in left;
        order := order + [name];
        left := left - {name};
      }
    }

    /** The objects the index has no line for, in order. */
    method SelectNew(c: Codec, objs: seq<Obj>) returns (newObjs: seq<Obj>)
      ensures newObjs == Missing(Entries(c, log), objs)
    {
      newObjs := [];
      var es := Entries(c, log);
      for i := 0 to |objs|
        invariant newObjs == Missing(es, objs[..i])
      {
        assert objs[..i + 1][..i] == objs[..i];
        if !HasId(es, objs[i].id) { newObjs := newObjs + [objs[i]]; }
      }
      assert objs[..|objs|] == objs;
    }

    /** Commits one pack after another. */
    method CommitAll(c: Codec, n: nat, groups: seq<seq<Obj>>)
      modifies this
      ensures State() == AfterCommits(c, old(State()), n, groups)
      ensures trace == old(trace) + AllCommitStates(c, old(State()), n, groups)
    {
      hide *;
      ghost var d, before := State(), trace;
      assert groups[..0] == [];
      CommitsNone(c, d, n);
      assert trace == before + [];
      for b := 0 to |groups|
        invariant State() == AfterCommits(c, d, n, groups[..b])
        invariant trace == before + AllCommitStates(c, d, n, groups[..b])
      {
        ghost var t := State();
        CommitOneMore(c, d, n, groups, b);
        WriteOnePackAndCommit(c, n + b, groups[b]);
        Associative(before, AllCommitStates(c, d, n, groups[..b]), CommitStates(c, t, n + b, groups[b]));
      }
      assert groups[..|groups|] == groups;
    }

    /** `tp_pack_multi` for the objects of one snapshot: recover, select, divide into packs, commit them in turn.
        Returns -1 for a target below 1, without a step. */
    method PackMulti(c: Codec, objs: seq<Obj>, isStore: Obj -> bool, target: int, algo: Algo,
            mallocFails: (nat, nat) -> bool)
      returns (rc: int, ghost run: Run, ghost place: seq<int>, ghost normal: nat)
      requires DistinctIds(objs) && DistinctPaths(objs) && AllStorable(objs) && target <= INT64_MAX
      modifies this
      ensures target < 1 ==> rc == -1 && State() == old(State()) && trace == old(trace)
      ensures target >= 1 ==>
                && rc == 0 && PacksMissing(c, old(State()), run, objs)
                && (ValidRun(c, old(State()), run) <==> NumbersLast(run))
                && IsListing(run.dir, old(packs))
                && IsListing(run.dirAfter, Recovered(c, old(State()), run.dir).packs)
                && State() == FinalDisk(c, old(State()), run)
                && (forall b :: 0 <= b < |run.groups| ==> run.groups[b] != [])
                && (var newObjs := Missing(Entries(c, old(log)), objs);
                    WellDivided(newObjs, Flags(newObjs, isStore), target, algo, place, normal, run.groups))
                && trace == old(trace) + RunStates(c, old(State()), run)
    {
      run, place, normal := Run([], [], [], 0), [], 0;
      if target < 1 { return -1, run, place, normal; }
      hide *;
      ghost var d := State();
      var dir := ListPacks();
      Recover(c, dir);
      ghost var r := State();
      var newObjs := SelectNew(c, objs);
      EntriesRecovered(c, d, dir);
      var groups;
      groups, place, normal := Divide(newObjs, isStore, target, algo, mallocFails);
      var dirAfter := ListPacks();
      var n := NextPackNumber(dirAfter);
      CommitAll(c, n, groups);
      run := Run(dir, dirAfter, groups, 0);
      WholeRun(c, d, r, run, objs, newObjs, State());
      Associative(old(trace), RecoveryStates(c, d, dir), AllCommitStates(c, r, n, groups));
      rc := 0;
    }

    /** The groups of objects that become packs. */
    method Divide(newObjs: seq<Obj>, isStore: Obj -> bool, target: int, algo: Algo, mallocFails: (nat, nat) -> bool)
      returns (groups: seq<seq<Obj>>, ghost place: seq<int>, ghost normal: nat)
      requires 1 <= target <= INT64_MAX
      ensures WellDivided(newObjs, Flags(newObjs, isStore), target, algo, place, normal, groups)
      ensures multiset(Concat(groups)) == multiset(newObjs) && |groups| <= |newObjs|
      ensures forall b :: 0 <= b < |groups| ==> groups[b] != []
    {
      place, normal := [], 0;
      if newObjs == [] {
        NothingDivided(target, algo);
        return [], place, normal;
      }
      var flags := Flags(newObjs, isStore);
      var ordered, offsets;
      ordered, offsets, normal, place := LayOut(newObjs, flags, target, algo, mallocFails);
      groups := Runs(ordered[..], offsets[..]);
      LayoutPermutes(newObjs, flags, place, normal, groups);
      NonEmptyRuns(groups);
      assert |Concat(groups)| == |multiset(newObjs)| == |newObjs|;
    }
  }

  lemma {:induction false} NonEmptyRuns<T>(runs: seq<seq<T>>)
    requires forall b :: 0 <= b < |runs| ==> runs[b] != []
    ensures |runs| <= |Concat(runs)|
  {
    if runs != [] { NonEmptyRuns(runs[..|runs| - 1]); }
  }
}
