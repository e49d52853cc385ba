/** Crash recovery at the start of every pack run: `repair_index_tail`, `recover_crashed_state` and
    `rewrite_checksums_filtered`, one disk step at a time. */
module Recovery {
  import opened Types
  import opened LineLog
  import opened OnDisk

  /** A listing of the pack directory, in the order it is read. */
  ghost predicate IsListing(order: seq<Name>, packs: map<Name, File>) {
    && (forall i, j :: 0 <= i < j < |order| ==> order[i] != order[j])
    && (forall name :: name in order <==> name in packs)
  }

  /** The packs that complete index lines name. */
  function Indexed(c: Codec, lines: seq<Bytes>): (s: set<nat>) {
    if lines == [] then {}
    else
      var rest := Indexed(c, lines[..|lines| - 1]);
      match c.packOf(lines[|lines| - 1])
      case Some(n) => rest + {n}
      case None => rest
  }

  function Add(s: seq<Name>, name: Name): (r: seq<Name>)
    ensures forall x :: x in r <==> x in s || x == name
  {
    if name in s then s else s + [name]
  }

  /** Scratch files go; a recognised archive no index line names goes, its manifest right after it. */
  function Doom(s: seq<Name>, name: Name, indexed: set<nat>): seq<Name> {
    if name.IsPart() then Add(s, name)
    else if name.Archive? && name.n < PACK_LIMIT && name.n !in indexed then Add(Add(s, name), Manifest(name.n))
    else s
  }

  function ToDelete(order: seq<Name>, indexed: set<nat>): seq<Name> {
    if order == [] then [] else Doom(ToDelete(order[..|order| - 1], indexed), order[|order| - 1], indexed)
  }

  function Names(s: seq<Name>): set<Name> { set x | x in s }

  /** The checksum lines whose file still exists. */
  function Listed(sums: seq<SumLine>, packs: map<Name, File>): (r: seq<SumLine>)
    ensures forall l :: l in r <==> l in sums && l.name in packs
    ensures |r| <= |sums| && (|r| == |sums| ==> r == sums)
  {
    if sums == [] then []
    else
      var rest := Listed(sums[..|sums| - 1], packs);
      if sums[|sums| - 1].name in packs then rest + [sums[|sums| - 1]] else rest
  }

  // ---------------------------------------------------------------- the states passed through

  function TailRepaired(d: Disk): Disk { d.(log := Repaired(d.log)) }

  function Doomed(c: Codec, d: Disk, order: seq<Name>): seq<Name> { ToDelete(order, Indexed(c, Lines(d.log))) }

  function Unlinked(c: Codec, d: Disk, order: seq<Name>, j: nat): Disk
    requires j <= |Doomed(c, d, order)|
  {
    TailRepaired(d).(packs := d.packs - Names(Doomed(c, d, order)[..j]))
  }

  function AllUnlinked(c: Codec, d: Disk, order: seq<Name>): Disk { Unlinked(c, d, order, |Doomed(c, d, order)|) }

  function Filtered(c: Codec, d: Disk, order: seq<Name>): seq<SumLine> {
    Listed(d.sums, AllUnlinked(c, d, order).packs)
  }

  /** Whether SHA256SUMS needs rewriting at all. */
  predicate Stale(c: Codec, d: Disk, order: seq<Name>) { |Filtered(c, d, order)| != |d.sums| }

  function Recovered(c: Codec, d: Disk, order: seq<Name>): Disk {
    if Stale(c, d, order) then AllUnlinked(c, d, order).(sums := Filtered(c, d, order), sumsPart := None)
    else AllUnlinked(c, d, order)
  }

  function RecoveryLength(c: Codec, d: Disk, order: seq<Name>): nat {
    1 + |Doomed(c, d, order)| + (if Stale(c, d, order) then 2 else 0)
  }

  /** The state after step `j`: the truncation is step 0, then one unlink a step, then the rewrite of SHA256SUMS. */
  function RecoveryAt(c: Codec, d: Disk, order: seq<Name>, j: nat): Disk
    requires j < RecoveryLength(c, d, order)
  {
    var m := |Doomed(c, d, order)|;
    if j <= m then Unlinked(c, d, order, j)
    else if j == m + 1 then AllUnlinked(c, d, order).(sumsPart := Some(Filtered(c, d, order)))
    else Recovered(c, d, order)
  }

  function RecoveryStates(c: Codec, d: Disk, order: seq<Name>): (s: seq<Disk>)
    ensures |s| == RecoveryLength(c, d, order)
    ensures s[|s| - 1] == Recovered(c, d, order)
  {
    seq(RecoveryLength(c, d, order), j requires 0 <= j < RecoveryLength(c, d, order) => RecoveryAt(c, d, order, j))
  }

  // ---------------------------------------------------------------- which files go

  lemma {:induction false} ToDeleteMembers(order: seq<Name>, indexed: set<nat>, name: Name)
    ensures name in ToDelete(order, indexed) <==>
              || (name.IsPart() && name in order)
              || (name.Archive? && name in order && name.n < PACK_LIMIT && name.n !in indexed)
              || (name.Manifest? && Archive(name.n) in order && name.n < PACK_LIMIT && name.n !in indexed)
  {
    if order != [] {
      ToDeleteMembers(order[..|order| - 1], indexed, name);
      assert order == order[..|order| - 1] + [order[|order| - 1]];
    }
  }

  /** An archive to delete is followed by its manifest. */
  ghost predicate ManifestFollows(s: seq<Name>) {
    forall i :: 0 <= i < |s| && s[i].Archive? ==> i + 1 < |s| && s[i + 1] == Manifest(s[i].n)
  }

  lemma {:induction false} ToDeletePairs(order: seq<Name>, indexed: set<nat>)
    requires forall i, j :: 0 <= i < j < |order| ==> order[i] != order[j]
    ensures ManifestFollows(ToDelete(order, indexed))
  {
    if order != [] {
      var init, last := order[..|order| - 1], order[|order| - 1];
      ToDeletePairs(init, indexed);
      ToDeleteMembers(init, indexed, last);
      ToDeleteMembers(init, indexed, Manifest(last.n));
      assert last !in init;
    }
  }

  lemma {:induction false} IndexedOfTexts(c: Codec, es: seq<Entry>, n: nat)
    requires Sound(c) && AllWritable(es)
    ensures n in Indexed(c, Texts(c, es)) <==> exists e :: e in es && e.pack == n
  {
    if es != [] {
      var m := |es| - 1;
      IndexedOfTexts(c, es[..m], n);
      assert Texts(c, es)[..m] == Texts(c, es[..m]);
      assert LineSound(c, es[m]);
      assert es == es[..m] + [es[m]];
    }
  }

  /** On a safe disk, exactly the scratch files, the archives of packs no entry names, and those archives'
      manifests go. */
  lemma DoomedExactly(c: Codec, d: Disk, order: seq<Name>, name: Name)
    requires Sound(c) && Safe(c, d) && IsListing(order, d.packs)
    ensures name in Doomed(c, d, order) <==>
              || (name.IsPart() && name in d.packs)
              || ((name.Archive? || name.Manifest?) && Archive(name.n) in d.packs && !IsIndexed(c, d, name.n))
  {
    ToDeleteMembers(order, Indexed(c, Lines(d.log)), name);
    SafeWritable(c, d);
    IndexedOfTexts(c, Entries(c, d.log), name.n);
  }

  ghost predicate IsIndexed(c: Codec, d: Disk, n: nat) { exists e :: e in Entries(c, d.log) && e.pack == n }

  // ---------------------------------------------------------------- safety at every step

  /** At every step of recovery, and hence after a crash at any, the disk is safe and no entry is harmed. */
  lemma RecoveryKeepsSafe(c: Codec, d: Disk, order: seq<Name>, j: nat)
    requires Sound(c) && Safe(c, d) && IsListing(order, d.packs) && j < RecoveryLength(c, d, order)
    ensures Safe(c, RecoveryAt(c, d, order, j)) && Preserved(c, d, RecoveryAt(c, d, order, j))
  {
    hide *;
    var t := RecoveryAt(c, d, order, j);
    RecoveryOnlyRemoves(c, d, order, j);
    forall e | e in Entries(c, d.log) ensures FileKept(d, t, Archive(e.pack)) && FileKept(d, t, Manifest(e.pack)) {
      RecoveryKeepsIndexed(c, d, order, j, e);
    }
    ArchivesNumbered(c, d);
    SafeFrame(c, d, t);
  }

  lemma ArchivesNumbered(c: Codec, d: Disk)
    requires Safe(c, d)
    ensures forall n: nat :: Archive(n) in d.packs ==> n < PACK_LIMIT
  {}

  /** No step adds a file or takes a checksum line from a file that stays. */
  lemma RecoveryOnlyRemoves(c: Codec, d: Disk, order: seq<Name>, j: nat)
    requires j < RecoveryLength(c, d, order)
    ensures var t := RecoveryAt(c, d, order, j);
            && Lines(t.log) == Lines(d.log) && SumsKept(d, t)
            && (forall name :: name in t.packs ==> name in d.packs)
  {
    LinesRepaired(d.log);
    hide Doomed;
  }

  lemma RecoveryKeepsIndexed(c: Codec, d: Disk, order: seq<Name>, j: nat, e: Entry)
    requires Sound(c) && Safe(c, d) && IsListing(order, d.packs) && j < RecoveryLength(c, d, order)
               && e in Entries(c, d.log)
    ensures FileKept(d, RecoveryAt(c, d, order, j), Archive(e.pack))
    ensures FileKept(d, RecoveryAt(c, d, order, j), Manifest(e.pack))
  {
    hide Doomed, Safe, Sound, Entries, IsListing, Repaired, Listed;
    assert IsIndexed(c, d, e.pack);
    DoomedExactly(c, d, order, Archive(e.pack));
    DoomedExactly(c, d, order, Manifest(e.pack));
  }

  /** What a finished recovery leaves: a whole index, no scratch file, no archive but those of indexed packs,
      and no checksum line for a file that is not there. */
  ghost predicate Consistent(c: Codec, d: Disk) {
    && Terminated(d.log)
    && (forall name :: name in d.packs ==> !name.IsPart())
    && (forall n: nat :: Archive(n) in d.packs <==> IsIndexed(c, d, n))
    && (forall l :: l in d.sums ==> l.name in d.packs)
  }

  lemma RecoveredPacks(c: Codec, d: Disk, order: seq<Name>, name: Name)
    ensures name in Recovered(c, d, order).packs <==> name in d.packs && name !in Doomed(c, d, order)
    ensures name in Recovered(c, d, order).packs ==> Recovered(c, d, order).packs[name] == d.packs[name]
  {
    var names := Doomed(c, d, order);
    assert names[..|names|] == names;
  }

  lemma RecoveredSums(c: Codec, d: Disk, order: seq<Name>, l: SumLine)
    ensures l in Recovered(c, d, order).sums <==> l in d.sums && l.name in Recovered(c, d, order).packs
  {}

  /** Recovery rewrites SHA256SUMS, by way of the scratch file, exactly if some line's file is gone afterwards. */
  lemma RewrittenExactly(c: Codec, d: Disk, order: seq<Name>)
    ensures var r := Recovered(c, d, order);
            if exists l :: l in d.sums && l.name !in r.packs then r.sumsPart == None && |r.sums| < |d.sums|
            else r.sums == d.sums && r.sumsPart == d.sumsPart
  {
    hide Doomed, Listed;
    ListedAll(d.sums, AllUnlinked(c, d, order).packs);
  }

  lemma {:induction false} ListedAll(sums: seq<SumLine>, packs: map<Name, File>)
    ensures (forall l :: l in sums ==> l.name in packs) <==> |Listed(sums, packs)| == |sums|
  {
    if sums != [] {
      var n := |sums| - 1;
      ListedAll(sums[..n], packs);
      assert sums == sums[..n] + [sums[n]];
    }
  }

  lemma RecoveredSafe(c: Codec, d: Disk, order: seq<Name>)
    requires Sound(c) && Safe(c, d) && IsListing(order, d.packs)
    ensures var r := Recovered(c, d, order);
            Safe(c, r) && Preserved(c, d, r) && Terminated(r.log) && Entries(c, r.log) == Entries(c, d.log)
  {
    var j := RecoveryLength(c, d, order) - 1;
    assert RecoveryAt(c, d, order, j) == Recovered(c, d, order);
    LinesRepaired(d.log);
    hide Safe, Preserved;
    RecoveryKeepsSafe(c, d, order, j);
  }

  lemma RecoveredNoParts(c: Codec, d: Disk, order: seq<Name>, name: Name)
    requires Sound(c) && Safe(c, d) && IsListing(order, d.packs) && name in Recovered(c, d, order).packs
    ensures !name.IsPart()
  {
    hide Recovered, Doomed, IsIndexed, Safe, Sound, IsListing;
    RecoveredPacks(c, d, order, name);
    DoomedExactly(c, d, order, name);
  }

  lemma RecoveredArchive(c: Codec, d: Disk, order: seq<Name>, n: nat)
    requires Sound(c) && Safe(c, d) && IsListing(order, d.packs)
    ensures Archive(n) in Recovered(c, d, order).packs <==> IsIndexed(c, d, n)
  {
    if e :| e in Entries(c, d.log) && e.pack == n { assert EntrySafe(c, d, e); }
    hide Recovered, Doomed, Safe, Sound, IsListing, Entries;
    RecoveredPacks(c, d, order, Archive(n));
    DoomedExactly(c, d, order, Archive(n));
  }

  lemma SameIndexed(c: Codec, d: Disk, t: Disk, n: nat)
    requires Entries(c, d.log) == Entries(c, t.log)
    ensures IsIndexed(c, d, n) == IsIndexed(c, t, n)
  {}

  lemma RecoveredIndexed(c: Codec, d: Disk, order: seq<Name>, n: nat)
    requires Sound(c) && Safe(c, d) && IsListing(order, d.packs)
    ensures Archive(n) in Recovered(c, d, order).packs <==> IsIndexed(c, Recovered(c, d, order), n)
  {
    hide *;
    RecoveredSafe(c, d, order);
    RecoveredArchive(c, d, order, n);
    SameIndexed(c, d, Recovered(c, d, order), n);
  }

  lemma RecoveredConsistent(c: Codec, d: Disk, order: seq<Name>)
    requires Sound(c) && Safe(c, d) && IsListing(order, d.packs)
    ensures Consistent(c, Recovered(c, d, order))
  {
    hide *;
    var r := Recovered(c, d, order);
    RecoveredSafe(c, d, order);
    forall name | name in r.packs ensures !name.IsPart() { RecoveredNoParts(c, d, order, name); }
    forall n: nat ensures Archive(n) in r.packs <==> IsIndexed(c, r, n) { RecoveredIndexed(c, d, order, n); }
    forall l | l in r.sums ensures l.name in r.packs { RecoveredSums(c, d, order, l); }
    ConsistentIf(c, r);
  }

  lemma ConsistentIf(c: Codec, d: Disk)
    requires Terminated(d.log)
    requires forall name :: name in d.packs ==> !name.IsPart()
    requires forall n: nat :: Archive(n) in d.packs <==> IsIndexed(c, d, n)
    requires forall l :: l in d.sums ==> l.name in d.packs
    ensures Consistent(c, d)
  {
    hide IsIndexed, Terminated;
  }
}
