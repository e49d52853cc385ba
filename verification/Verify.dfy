/** Integrity checking: `tp_verify`, shallow and deep. */
module Verify {
  import opened Types
  import opened LineLog
  import opened OnDisk
  import opened Recovery

  ghost predicate SumsMatch(c: Codec, d: Disk) {
    forall l :: l in d.sums ==> l.name in d.packs && c.digest(d.packs[l.name]) == l.hash
  }

  ghost predicate IsListed(sums: seq<SumLine>, name: Name) { exists l :: l in sums && l.name == name }

  ghost predicate AllListed(d: Disk) {
    forall name :: name in d.packs && !name.IsPart() ==> IsListed(d.sums, name)
  }

  ghost predicate IndexBacked(c: Codec, d: Disk) {
    forall line :: line in ReadLines(d.log) && c.packOf(line).Some? ==> Archive(c.packOf(line).value) in d.packs
  }

  /** What `verify` accepts: every checksum line matches its file, every archive and manifest is listed,
      and every pack the index names exists. */
  ghost predicate Clean(c: Codec, d: Disk) { SumsMatch(c, d) && AllListed(d) && IndexBacked(c, d) }

  lemma ListedMore(sums: seq<SumLine>, l: SumLine, name: Name)
    ensures IsListed(sums + [l], name) <==> IsListed(sums, name) || l.name == name
  {
    assert l in sums + [l];
    if x :| x in sums && x.name == name { assert x in sums + [l]; }
  }

  method VerifyChecksumsFile(c: Codec, d: Disk) returns (failed: bool, listed: seq<Name>)
    ensures !failed <==> SumsMatch(c, d)
    ensures forall name :: name in listed <==> IsListed(d.sums, name)
  {
    failed, listed := false, [];
    for i := 0 to |d.sums|
      invariant !failed <==> forall l :: l in d.sums[..i] ==> l.name in d.packs && c.digest(d.packs[l.name]) == l.hash
      invariant forall name :: name in listed <==> IsListed(d.sums[..i], name)
    {
      var l := d.sums[i];
      assert d.sums[..i + 1] == d.sums[..i] + [l];
      listed := listed + [l.name];
      forall name ensures IsListed(d.sums[..i + 1], name) <==> IsListed(d.sums[..i], name) || l.name == name {
        ListedMore(d.sums[..i], l, name);
      }
      if l.name !in d.packs || c.digest(d.packs[l.name]) != l.hash { failed := true; }
    }
    assert d.sums[..|d.sums|] == d.sums;
  }

  method VerifyPacksVsChecksums(d: Disk, order: seq<Name>, listed: seq<Name>) returns (failed: bool)
    requires IsListing(order, d.packs)
    requires forall name :: name in listed <==> IsListed(d.sums, name)
    ensures !failed <==> AllListed(d)
  {
    failed := false;
    for i := 0 to |order|
      invariant !failed <==> forall name :: name in order[..i] && !name.IsPart() ==> name in listed
    {
      assert order[..i + 1] == order[..i] + [order[i]];
      if !order[i].IsPart() && order[i] !in listed { failed := true; }
    }
    assert order[..|order|] == order;
  }

  method VerifyIndexVsPacks(c: Codec, d: Disk) returns (failed: bool)
    ensures !failed <==> IndexBacked(c, d)
  {
    failed := false;
    var lines := ReadLines(d.log);
    for i := 0 to |lines|
      invariant !failed
                <==> forall line :: line in lines[..i] && c.packOf(line).Some? ==>
                  Archive(c.packOf(line).value) in d.packs
    {
      assert lines[..i + 1] == lines[..i] + [lines[i]];
      match c.packOf(lines[i]) {
        case Some(n) => if Archive(n) !in d.packs { failed := true; }
        case None =>
      }
    }
    assert lines[..|lines|] == lines;
  }

  /** `tp_verify`, and with `deep` also every archive against its manifest; the directory is read as `order`. */
  method TpVerify(c: Codec, d: Disk, order: seq<Name>, deep: bool) returns (failed: bool)
    requires IsListing(order, d.packs)
    ensures !failed <==> Clean(c, d) && (deep ==> DeepClean(c, d))
  {
    var f1, listed := VerifyChecksumsFile(c, d);
    var f2 := VerifyPacksVsChecksums(d, order, listed);
    var f3 := VerifyIndexVsPacks(c, d);
    failed := f1 || f2 || f3;
    if deep {
      var f4 := VerifyAllPacksObjects(c, d, order);
      failed := failed || f4;
    }
  }

  // ---------------------------------------------------------------- deep verification of one pack

  /** The first manifest entry for a pathname. */
  function FindEntry(es: seq<ManifestEntry>, path: Bytes): (i: nat)
    ensures i <= |es| && (i < |es| ==> es[i].path == path)
    ensures forall j :: 0 <= j < i ==> es[j].path != path
  {
    FirstIndex(es, (e: ManifestEntry) => e.path == path)
  }

  predicate MemberOk(c: Codec, es: seq<ManifestEntry>, m: Member) {
    var i := FindEntry(es, m.path);
    i < |es| && |m.data| == es[i].size && c.sha(m.data) == es[i].sha
  }

  /** What deep verification of a pack accepts, the list of seen paths holding no more than the manifest has entries. */
  ghost predicate DeepOk(c: Codec, es: seq<ManifestEntry>, ms: seq<Member>) {
    && (forall m :: m in ms ==> MemberOk(c, es, m))
    && (forall e :: e in es ==> exists k :: 0 <= k < |ms| && k < |es| && ms[k].path == e.path)
  }

  method VerifyOnePackObjects(c: Codec, es: seq<ManifestEntry>, ms: seq<Member>) returns (failed: bool)
    ensures !failed <==> DeepOk(c, es, ms)
  {
    hide FindEntry;
    failed := false;
    var seen: seq<Bytes> := [];
    for k := 0 to |ms|
      invariant !failed <==> forall j :: 0 <= j < k ==> MemberOk(c, es, ms[j])
      invariant !failed ==> |seen| == (if k < |es| then k else |es|)
      invariant !failed ==> forall j :: 0 <= j < |seen| ==> seen[j] == ms[j].path
    {
      var i := FindEntry(es, ms[k].path);
      if i == |es| {
        failed := true;
      } else {
        if |seen| < |es| { seen := seen + [ms[k].path]; }
        if |ms[k].data| != es[i].size || c.sha(ms[k].data) != es[i].sha { failed := true; }
      }
    }
    ghost var membersOk := !failed;
    for i := 0 to |es|
      invariant !failed <==> membersOk && forall j :: 0 <= j < i ==> es[j].path in seen
    {
      if es[i].path !in seen { failed := true; }
    }
    if membersOk { SeenAll(es, ms, seen); }
  }

  lemma SeenAll(es: seq<ManifestEntry>, ms: seq<Member>, seen: seq<Bytes>)
    requires |seen| == if |ms| < |es| then |ms| else |es|
    requires forall j :: 0 <= j < |seen| ==> seen[j] == ms[j].path
    ensures (forall j :: 0 <= j < |es| ==> es[j].path in seen)
            <==> (forall e :: e in es ==> exists k :: 0 <= k < |ms| && k < |es| && ms[k].path == e.path)
  {
    forall e: ManifestEntry | e in es
      ensures e.path in seen <==> exists k :: 0 <= k < |ms| && k < |es| && ms[k].path == e.path
    {
      if k :| 0 <= k < |ms| && k < |es| && ms[k].path == e.path { assert seen[k] == e.path; }
    }
  }

  ghost predicate DeepClean(c: Codec, d: Disk) {
    forall n: nat :: Archive(n) in d.packs ==> PackDeepOk(c, d, n)
  }

  ghost predicate PackDeepOk(c: Codec, d: Disk, n: nat)
    requires Archive(n) in d.packs
  {
    && Manifest(n) in d.packs && d.packs[Manifest(n)].ManifestFile? && d.packs[Archive(n)].ArchiveFile?
    && DeepOk(c, d.packs[Manifest(n)].entries, d.packs[Archive(n)].members)
  }

  /** Every archive of the directory in turn; a missing or unreadable file fails its pack. */
  method VerifyAllPacksObjects(c: Codec, d: Disk, order: seq<Name>) returns (failed: bool)
    requires IsListing(order, d.packs)
    ensures !failed <==> DeepClean(c, d)
  {
    failed := false;
    for i := 0 to |order|
      invariant !failed <==> forall j :: 0 <= j < i && order[j].Archive? ==> PackDeepOk(c, d, order[j].n)
    {
      if order[i].Archive? {
        var n := order[i].n;
        if Manifest(n) !in d.packs || !d.packs[Manifest(n)].ManifestFile? || !d.packs[Archive(n)].ArchiveFile? {
          failed := true;
        } else {
          var f := VerifyOnePackObjects(c, d.packs[Manifest(n)].entries, d.packs[Archive(n)].members);
          if f { failed := true; }
        }
      }
    }
    if !failed {
      forall n: nat | Archive(n) in d.packs ensures PackDeepOk(c, d, n) {
        var j :| 0 <= j < |order| && order[j] == Archive(n);
      }
    }
  }

  // ---------------------------------------------------------------- what deep verification establishes

  ghost predicate DistinctEntries(es: seq<ManifestEntry>) {
    forall i, j :: 0 <= i < j < |es| ==> es[i].path != es[j].path
  }

  function MemberPaths(ms: seq<Member>): set<Bytes> { set k | 0 <= k < |ms| :: ms[k].path }

  function EntryPaths(es: seq<ManifestEntry>): set<Bytes> { set k | 0 <= k < |es| :: es[k].path }

  /** Some manifest entry describes the member. */
  ghost predicate Recorded(c: Codec, es: seq<ManifestEntry>, m: Member) {
    exists e :: e in es && e.path == m.path && e.size == |m.data| && e.sha == c.sha(m.data)
  }

  /** A pack that passes has the same pathnames on both sides, and contents as the manifest records them. */
  lemma DeepOkMeans(c: Codec, es: seq<ManifestEntry>, ms: seq<Member>)
    requires DeepOk(c, es, ms)
    ensures MemberPaths(ms) == EntryPaths(es)
    ensures forall m :: m in ms ==> Recorded(c, es, m)
  {
    forall m | m in ms
      ensures m.path in EntryPaths(es)
      ensures Recorded(c, es, m)
    {
      assert MemberOk(c, es, m);
      assert es[FindEntry(es, m.path)] in es;
    }
    forall p | p in EntryPaths(es) ensures p in MemberPaths(ms) {
      var i :| 0 <= i < |es| && es[i].path == p;
      assert es[i] in es;
    }
  }

  lemma {:induction false} DistinctPathCount(ms: seq<Member>)
    requires DistinctMembers(ms)
    ensures |MemberPaths(ms)| == |ms|
  {
    if ms != [] {
      var n := |ms| - 1;
      DistinctPathCount(ms[..n]);
      assert MemberPaths(ms) == MemberPaths(ms[..n]) + {ms[n].path};
      assert ms[n].path !in MemberPaths(ms[..n]);
    }
  }

  lemma {:induction false} EntryPathCount(es: seq<ManifestEntry>)
    ensures |EntryPaths(es)| <= |es|
  {
    if es != [] {
      var n := |es| - 1;
      EntryPathCount(es[..n]);
      assert EntryPaths(es) == EntryPaths(es[..n]) + {es[n].path};
    }
  }

  /** With no pathname twice on either side, agreeing is also enough to pass. */
  lemma DistinctAgreeingIsDeepOk(c: Codec, es: seq<ManifestEntry>, ms: seq<Member>)
    requires DistinctMembers(ms) && DistinctEntries(es) && MemberPaths(ms) == EntryPaths(es)
    requires forall m :: m in ms ==> Recorded(c, es, m)
    ensures DeepOk(c, es, ms)
  {
    DistinctPathCount(ms);
    EntryPathCount(es);
    forall m | m in ms ensures MemberOk(c, es, m) {
      var e :| e in es && e.path == m.path && e.size == |m.data| && e.sha == c.sha(m.data);
      var i :| 0 <= i < |es| && es[i] == e;
      assert FindEntry(es, m.path) == i;
    }
    forall e | e in es ensures exists k :: 0 <= k < |ms| && k < |es| && ms[k].path == e.path {
      var i :| 0 <= i < |es| && es[i] == e;
      assert e.path in MemberPaths(ms);
    }
  }

  /** The converse fails when a pathname repeats: an archive and manifest that agree, and are refused. */
  lemma RepeatedPathCanFail(c: Codec, p: Bytes, q: Bytes, data: Bytes)
    requires p != q
    ensures var m, n := Member(p, data), Member(q, data);
            var e, f := ManifestEntry("O1", p, |data|, c.sha(data)), ManifestEntry("O2", q, |data|, c.sha(data));
            && MemberPaths([m, m, n]) == EntryPaths([e, f])
            && (forall x :: x in [m, m, n] ==> MemberOk(c, [e, f], x))
            && !DeepOk(c, [e, f], [m, m, n])
  {
    var m, n := Member(p, data), Member(q, data);
    var e, f := ManifestEntry("O1", p, |data|, c.sha(data)), ManifestEntry("O2", q, |data|, c.sha(data));
    var ms, es := [m, m, n], [e, f];
    assert ms[0].path == p && ms[2].path == q && es[0].path == p && es[1].path == q;
    assert MemberPaths(ms) == {p, q} == EntryPaths(es);
    assert es[1..] == [f];
    assert f in es && forall k :: 0 <= k < |ms| && k < |es| ==> ms[k].path == p;
  }

  /** The same pathnames on both sides, and every member as the first entry of its pathname says. */
  ghost predicate Agrees(c: Codec, es: seq<ManifestEntry>, ms: seq<Member>) {
    MemberPaths(ms) == EntryPaths(es) && forall m :: m in ms ==> MemberOk(c, es, m)
  }

  /** The members whose pathnames the list of seen paths can hold. */
  function Seen(es: seq<ManifestEntry>, ms: seq<Member>): seq<Member> { if |ms| <= |es| then ms else ms[..|es|] }

  /** An archive and manifest that agree pass exactly if every pathname is met among as many members as there are
      entries; so they always do when there are no more members than entries. */
  lemma AgreeingPassesExactly(c: Codec, es: seq<ManifestEntry>, ms: seq<Member>)
    requires Agrees(c, es, ms)
    ensures DeepOk(c, es, ms) <==> EntryPaths(es) <= MemberPaths(Seen(es, ms))
    ensures |ms| <= |es| ==> DeepOk(c, es, ms)
  {
    hide MemberOk;
    if EntryPaths(es) <= MemberPaths(Seen(es, ms)) {
      forall e | e in es ensures exists k :: 0 <= k < |ms| && k < |es| && ms[k].path == e.path {
        var i :| 0 <= i < |es| && es[i] == e;
        assert e.path in MemberPaths(Seen(es, ms));
        var k :| 0 <= k < |Seen(es, ms)| && Seen(es, ms)[k].path == e.path;
      }
    }
    if DeepOk(c, es, ms) {
      forall p | p in EntryPaths(es) ensures p in MemberPaths(Seen(es, ms)) {
        var i :| 0 <= i < |es| && es[i].path == p;
        assert es[i] in es;
        var k :| 0 <= k < |ms| && k < |es| && ms[k].path == p;
        assert Seen(es, ms)[k].path == p;
      }
    }
  }

  /** A pack in place passes deep verification. */
  lemma InPlaceDeepOk(c: Codec, d: Disk, n: nat)
    requires PackInPlace(c, d, n)
    ensures PackDeepOk(c, d, n)
  {
    var es, ms := d.packs[Manifest(n)].entries, d.packs[Archive(n)].members;
    forall m | m in ms ensures MemberOk(c, es, m) {
      var k :| 0 <= k < |ms| && ms[k] == m;
      var i := FindEntry(es, m.path);
      assert es[k].path == m.path;
      assert i <= k;
      assert ms[i].path == es[i].path;
    }
    forall e | e in es ensures exists k :: 0 <= k < |ms| && k < |es| && ms[k].path == e.path {
      var k :| 0 <= k < |es| && es[k] == e;
    }
  }

  // ---------------------------------------------------------------- what verification detects

  /** A clean repository with one file changed, lost or added is no longer clean. */
  lemma ChangedFileFails(c: Codec, d: Disk, name: Name, file: File)
    requires Clean(c, d) && name in d.packs && !name.IsPart() && c.digest(file) != c.digest(d.packs[name])
    ensures !Clean(c, d.(packs := d.packs[name := file]))
  {
    hide IndexBacked;
    var l :| l in d.sums && l.name == name;
  }

  lemma LostFileFails(c: Codec, d: Disk, name: Name)
    requires Clean(c, d) && name in d.packs && !name.IsPart()
    ensures !Clean(c, d.(packs := d.packs - {name}))
  {
    hide IndexBacked;
    var l :| l in d.sums && l.name == name;
  }

  lemma AddedFileFails(c: Codec, d: Disk, name: Name, file: File)
    requires Clean(c, d) && name !in d.packs && !name.IsPart()
    ensures !Clean(c, d.(packs := d.packs[name := file]))
  {
    hide IndexBacked;
    var t := d.(packs := d.packs[name := file]);
    assert name in t.packs;
  }

  /** And a pack that the index names is missed even if its checksum lines went with it. */
  lemma LostPackFails(c: Codec, d: Disk, t: Disk, e: Entry)
    requires Sound(c) && IndexSafe(c, d) && Terminated(d.log) && e in Entries(c, d.log)
    requires t.log == d.log && Archive(e.pack) !in t.packs
    ensures !Clean(c, t)
  {
    SafeWritable(c, d);
    ReadLinesClean(d.log);
    var es := Entries(c, d.log);
    var i :| 0 <= i < |es| && es[i] == e;
    var line := Texts(c, es)[i];
    assert line in ReadLines(t.log);
    assert LineSound(c, e);
  }

  /** A torn last line of the index is searched too. */
  lemma TornLineFails(c: Codec, d: Disk, base: Bytes, torn: Bytes, n: nat)
    requires d.log == base + torn && Terminated(base) && torn != [] && NEWLINE !in torn
    requires c.packOf(torn) == Some(n) && Archive(n) !in d.packs
    ensures !Clean(c, d)
  {
    TornReadLines(base, torn);
    assert (Lines(base) + [torn])[|Lines(base)|] == torn;
    assert torn in ReadLines(d.log);
  }

  /** A member whose bytes no longer have the hash in the manifest fails deep verification. */
  lemma ChangedMemberFails(c: Codec, es: seq<ManifestEntry>, ms: seq<Member>, k: nat, data: Bytes)
    requires DistinctEntries(es) && DeepOk(c, es, ms) && k < |ms|
    requires Injective(c.sha) && data != ms[k].data
    ensures !DeepOk(c, es, ms[k := Member(ms[k].path, data)])
  {
    var m := Member(ms[k].path, data);
    assert ms[k] in ms && MemberOk(c, es, ms[k]);
    var t := ms[k := m];
    assert t[k] in t && t[k] == m;
    assert c.sha(data) != c.sha(ms[k].data);
    assert !MemberOk(c, es, m);
  }
}
