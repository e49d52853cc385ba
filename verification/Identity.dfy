/** What an object id stands for: within one scan, and against everything the index holds already. */
module Identity {
  import opened Types
  import opened Decimals
  import opened Int64
  import opened OnDisk
  import opened ObjectIndex
  import opened Scan

  /** What a file of a given path, size and modification time holds, whenever it is looked at. */
  type Truth = (Bytes, nat, Time) -> Bytes

  ghost predicate Honest(truth: Truth, tree: seq<FileStat>) {
    forall i :: 0 <= i < |tree| ==> tree[i].data == truth(tree[i].path, |tree[i].data|, tree[i].mtime)
  }

  /** Names of one inode are names of one content. */
  ghost predicate OneContentPerInode(tree: seq<FileStat>) {
    forall i, j :: 0 <= i < |tree| && 0 <= j < |tree| && tree[i].inode == tree[j].inode ==> tree[i].data == tree[j].data
  }

  ghost predicate DistinctFiles(tree: seq<FileStat>) {
    forall i, j :: 0 <= i < j < |tree| ==> tree[i].path != tree[j].path
  }

  /** These bytes are what an entry says. */
  predicate EntryFits(c: Codec, e: Entry, data: Bytes) { e.sha == c.sha(data) && e.size == |data| }

  ghost predicate EntryTrue(c: Codec, truth: Truth, e: Entry) { EntryFits(c, e, truth(e.path, e.size, e.mtime)) }

  ghost predicate AllTrue(c: Codec, truth: Truth, es: seq<Entry>) { forall e :: e in es ==> EntryTrue(c, truth, e) }

  /** Every numbered id is one that leaves a larger one to be given out. */
  ghost predicate IdsLeft(es: seq<Entry>) {
    forall e :: e in es && Number(e.id).Some? ==> Number(e.id).value < UINT64_MAX
  }

  ghost predicate IdsWritable(es: seq<Entry>) { forall e :: e in es ==> WritableId(e.id) }

  /** The name by which the inode of file `i` was met first. */
  ghost function EarliestName(tree: seq<FileStat>, i: nat): (r: nat)
    requires i < |tree|
    ensures r <= i && tree[r].inode == tree[i].inode && FirstOfInode(tree, r)
    decreases i
  {
    if j: nat :| j < i && tree[j].inode == tree[i].inode then EarliestName(tree, j) else i
  }

  /** A scan of an honest tree against a truthful index, while numbers last. */
  ghost predicate GoodScan(c: Codec, truth: Truth, es: seq<Entry>, hashed: FileStat -> bool,
          tree: seq<FileStat>, snap: seq<SnapFile>) {
    && Sound(c) && AllTrue(c, truth, es) && DistinctEntryIds(es) && IdsLeft(es) && IdsWritable(es)
    && Honest(truth, tree) && OneContentPerInode(tree)
    && NextId(es) + |tree| <= UINT64_MAX
    && Scanned(c, es, hashed, tree, snap)
  }

  lemma FreshNotIn(es: seq<Entry>, n: nat)
    requires IdsLeft(es) && n >= NextId(es)
    ensures !HasId(es, FormatId(n))
  {
    NextIdBounds(es);
    NumberOfFormat(n);
    HasIdMeans(es, FormatId(n));
    hide Number, NextId, FormatId;
  }

  lemma FormatInjective(m: nat, n: nat)
    requires FormatId(m) == FormatId(n)
    ensures m == n
  {
    NumberOfFormat(m);
    NumberOfFormat(n);
  }

  lemma {:induction false} NewBeforeGrows(c: Codec, es: seq<Entry>, hashed: FileStat -> bool,
          tree: seq<FileStat>, i: nat, j: nat)
    requires i < j <= |tree|
    ensures NewBefore(c, es, hashed, tree, i) + (if IsNew(c, es, hashed, tree, i) then 1 else 0)
            <= NewBefore(c, es, hashed, tree, j)
    decreases j
  {
    hide IsNew;
    if i + 1 < j { NewBeforeGrows(c, es, hashed, tree, i, j - 1); }
  }

  /** The number a new object is given. */
  ghost function NewNumber(c: Codec, es: seq<Entry>, hashed: FileStat -> bool, tree: seq<FileStat>, i: nat): nat
    requires i <= |tree|
  {
    NextId(es) + NewBefore(c, es, hashed, tree, i)
  }

  lemma FirstNewId(c: Codec, truth: Truth, es: seq<Entry>, hashed: FileStat -> bool, tree: seq<FileStat>,
          snap: seq<SnapFile>, i: nat)
    requires GoodScan(c, truth, es, hashed, tree, snap) && i < |tree|
    ensures IsNew(c, es, hashed, tree, i)
            ==> snap[i].id == FormatId(NewNumber(c, es, hashed, tree, i)) && !HasId(es, snap[i].id)
  {
    hide NextId, NewBefore, FormatId, PathHit, ShaHit, IdsLeft;
    assert IdChosen(c, es, hashed, tree, snap, i);
    FreshNotIn(es, NewNumber(c, es, hashed, tree, i));
  }

  lemma PathMatchFits(c: Codec, truth: Truth, e: Entry, f: FileStat)
    requires EntryTrue(c, truth, e) && PathMatches(e, f) && f.data == truth(f.path, |f.data|, f.mtime)
    ensures EntryFits(c, e, f.data)
  {}

  lemma ShaMatchFits(c: Codec, truth: Truth, e: Entry, f: FileStat)
    requires Sound(c) && EntryTrue(c, truth, e) && ShaMatches(c, e, f)
    ensures EntryFits(c, e, f.data)
  {}

  lemma FirstOldId(c: Codec, truth: Truth, es: seq<Entry>, hashed: FileStat -> bool, tree: seq<FileStat>,
          snap: seq<SnapFile>, i: nat)
    requires GoodScan(c, truth, es, hashed, tree, snap) && i < |tree|
    requires FirstOfInode(tree, i) && !IsNew(c, es, hashed, tree, i)
    ensures exists e :: e in es && e.id == snap[i].id && EntryFits(c, e, tree[i].data)
  {
    hide NextId, NewBefore, FormatId, IdsLeft, Sound, PathMatches, ShaMatches, EntryFits, EntryTrue;
    assert IdChosen(c, es, hashed, tree, snap, i);
    if PathHit(es, tree[i]) {
      var e :| e in es && PathMatches(e, tree[i]) && Cut(e.id) == snap[i].id;
      PathMatchFits(c, truth, e, tree[i]);
    } else {
      var e :| e in es && ShaMatches(c, e, tree[i]) && Cut(e.id) == snap[i].id;
      ShaMatchFits(c, truth, e, tree[i]);
    }
  }

  lemma IdOfFirst(c: Codec, es: seq<Entry>, hashed: FileStat -> bool, tree: seq<FileStat>, snap: seq<SnapFile>, i: nat)
    requires Scanned(c, es, hashed, tree, snap) && i < |tree|
    ensures snap[i].id == snap[EarliestName(tree, i)].id
  {
    hide NextId, NewBefore, FormatId, PathHit, ShaHit, PathMatches, ShaMatches;
    assert IdChosen(c, es, hashed, tree, snap, i);
  }

  lemma TwentyDigits()
    ensures Power10(20) > TWO_64
  {
    assert Power10(5) == 100000 && Power10(10) == 10000000000;
  }

  lemma FormatWritable(n: nat)
    requires n < TWO_64
    ensures WritableId(FormatId(n))
  {
    hide Digits, Power10, Decimal;
    DigitsLength(n, 20);
    TwentyDigits();
    assert forall i :: 0 < i < |FormatId(n)| ==> FormatId(n)[i] == Digits(n)[i - 1];
  }

  lemma CutWritable(e: Entry)
    requires WritableId(e.id)
    ensures WritableId(Cut(e.id))
  {}

  lemma FirstIdWritable(c: Codec, es: seq<Entry>, hashed: FileStat -> bool, tree: seq<FileStat>,
          snap: seq<SnapFile>, i: nat)
    requires i < |tree| && i < |snap| && IdChosen(c, es, hashed, tree, snap, i)
    requires FirstOfInode(tree, i) && IdsWritable(es)
    ensures WritableId(snap[i].id)
  {
    hide NextId, NewBefore, FormatId, PathHit, ShaHit, PathMatches, ShaMatches, WritableId, Cut;
    var n := (NextId(es) + NewBefore(c, es, hashed, tree, i)) % TWO_64;
    FormatWritable(n);
    if PathHit(es, tree[i]) {
      var e :| e in es && PathMatches(e, tree[i]) && Cut(e.id) == snap[i].id;
      CutWritable(e);
    } else if hashed(tree[i]) && ShaHit(c, es, tree[i]) {
      var e :| e in es && ShaMatches(c, e, tree[i]) && Cut(e.id) == snap[i].id;
      CutWritable(e);
    }
  }

  /** Every id a scan gives, from the index or new, can be written. */
  lemma ScannedIdWritable(c: Codec, es: seq<Entry>, hashed: FileStat -> bool, tree: seq<FileStat>,
          snap: seq<SnapFile>, i: nat)
    requires Scanned(c, es, hashed, tree, snap) && IdsWritable(es) && i < |tree|
    ensures WritableId(snap[i].id)
  {
    hide IdChosen, WritableId, EarliestName, IdsWritable;
    var r := EarliestName(tree, i);
    IdOfFirst(c, es, hashed, tree, snap, i);
    FirstIdWritable(c, es, hashed, tree, snap, r);
  }

  /** The entry of a scanned file's id, if the index has one, holds that file's bytes. */
  lemma EntryOfScanned(c: Codec, truth: Truth, es: seq<Entry>, hashed: FileStat -> bool, tree: seq<FileStat>,
          snap: seq<SnapFile>,
                       i: nat, e: Entry)
    requires GoodScan(c, truth, es, hashed, tree, snap) && i < |tree| && e in es && e.id == snap[i].id
    ensures EntryFits(c, e, tree[i].data)
  {
    var r := EarliestName(tree, i);
    IdOfFirst(c, es, hashed, tree, snap, i);
    assert tree[r].data == tree[i].data;
    hide EarliestName, EntryFits, IsNew, AllTrue, IdChosen, IdsLeft, Sound;
    HasIdMeans(es, snap[r].id);
    FirstNewId(c, truth, es, hashed, tree, snap, r);
    FirstOldId(c, truth, es, hashed, tree, snap, r);
    var x :| x in es && x.id == snap[r].id && EntryFits(c, x, tree[r].data);
    assert x == e;
  }

  /** Two files of a scan that share an id hold the same bytes. */
  lemma OneContentPerId(c: Codec, truth: Truth, es: seq<Entry>, hashed: FileStat -> bool, tree: seq<FileStat>,
          snap: seq<SnapFile>,
                        i: nat, j: nat)
    requires GoodScan(c, truth, es, hashed, tree, snap) && i < |tree| && j < |tree| && snap[i].id == snap[j].id
    ensures tree[i].data == tree[j].data
  {
    hide NextId, NewBefore, FormatId, EarliestName, EntryFits, IsNew, AllTrue, IdsLeft, Sound, IdChosen;
    HasIdMeans(es, snap[i].id);
    if HasId(es, snap[i].id) {
      var e :| e in es && e.id == snap[i].id;
      EntryOfScanned(c, truth, es, hashed, tree, snap, i, e);
      EntryOfScanned(c, truth, es, hashed, tree, snap, j, e);
      SameDescription(c, e, tree[i].data, tree[j].data);
    } else {
      var r, s := EarliestName(tree, i), EarliestName(tree, j);
      NewFirst(c, truth, es, hashed, tree, snap, i);
      NewFirst(c, truth, es, hashed, tree, snap, j);
      FormatInjective(NewNumber(c, es, hashed, tree, r), NewNumber(c, es, hashed, tree, s));
      if r < s { NewBeforeGrows(c, es, hashed, tree, r, s); }
      if s < r { NewBeforeGrows(c, es, hashed, tree, s, r); }
    }
  }

  lemma SameDescription(c: Codec, e: Entry, a: Bytes, b: Bytes)
    requires Sound(c) && EntryFits(c, e, a) && EntryFits(c, e, b)
    ensures a == b
  {}

  lemma NewFirst(c: Codec, truth: Truth, es: seq<Entry>, hashed: FileStat -> bool, tree: seq<FileStat>,
          snap: seq<SnapFile>, i: nat)
    requires GoodScan(c, truth, es, hashed, tree, snap) && i < |tree| && !HasId(es, snap[i].id)
    ensures var r := EarliestName(tree, i);
            IsNew(c, es, hashed, tree, r) && snap[i].id == FormatId(NewNumber(c, es, hashed, tree, r))
  {
    var r := EarliestName(tree, i);
    IdOfFirst(c, es, hashed, tree, snap, i);
    hide EarliestName, EntryFits, IsNew, AllTrue, IdsLeft, Sound, NewNumber, IdChosen;
    FirstNewId(c, truth, es, hashed, tree, snap, r);
    HasIdMeans(es, snap[i].id);
    if !IsNew(c, es, hashed, tree, r) { FirstOldId(c, truth, es, hashed, tree, snap, r); }
  }

  /** Different inodes that are both new get different ids, neither of them in the index. */
  lemma NewObjectsApart(c: Codec, truth: Truth, es: seq<Entry>, hashed: FileStat -> bool, tree: seq<FileStat>,
          snap: seq<SnapFile>,
                        i: nat, j: nat)
    requires GoodScan(c, truth, es, hashed, tree, snap) && i < j < |tree|
    requires IsNew(c, es, hashed, tree, i) && IsNew(c, es, hashed, tree, j)
    ensures snap[i].id != snap[j].id && !HasId(es, snap[i].id) && !HasId(es, snap[j].id)
  {
    hide NextId, NewBefore, FormatId, IsNew, AllTrue, IdsLeft, Sound, IdChosen;
    FirstNewId(c, truth, es, hashed, tree, snap, i);
    FirstNewId(c, truth, es, hashed, tree, snap, j);
    NewBeforeGrows(c, es, hashed, tree, i, j);
    if snap[i].id == snap[j].id {
      FormatInjective(NewNumber(c, es, hashed, tree, i), NewNumber(c, es, hashed, tree, j));
    }
  }

  /** Some entry has the file's path, size and modification time. */
  ghost predicate KnownByPath(es: seq<Entry>, f: FileStat) {
    exists e :: e in es && e.path == f.path && e.size == |f.data| && e.mtime == f.mtime
  }

  /** Some entry has the hash of the file's bytes. */
  ghost predicate KnownByHash(c: Codec, es: seq<Entry>, f: FileStat) { exists e :: e in es && e.sha == c.sha(f.data) }

  /** A file keeps an id of the index exactly if the name its inode was met by first is known there by path, size and
      time, or is hashed and known by its bytes. */
  lemma KnownExactly(c: Codec, truth: Truth, es: seq<Entry>, hashed: FileStat -> bool, tree: seq<FileStat>,
          snap: seq<SnapFile>, i: nat)
    requires GoodScan(c, truth, es, hashed, tree, snap) && i < |tree|
    ensures var f := tree[EarliestName(tree, i)];
            HasId(es, snap[i].id) <==> KnownByPath(es, f) || (hashed(f) && KnownByHash(c, es, f))
  {
    var r := EarliestName(tree, i);
    KnownMeans(c, es, hashed, tree, r);
    IdOfFirst(c, es, hashed, tree, snap, i);
    hide EarliestName, EntryFits, IsNew, AllTrue, IdsLeft, Sound, NewNumber, IdChosen, KnownByPath, KnownByHash;
    FirstNewId(c, truth, es, hashed, tree, snap, r);
    HasIdMeans(es, snap[r].id);
    if !IsNew(c, es, hashed, tree, r) { FirstOldId(c, truth, es, hashed, tree, snap, r); }
  }

  lemma KnownMeans(c: Codec, es: seq<Entry>, hashed: FileStat -> bool, tree: seq<FileStat>, r: nat)
    requires r < |tree| && FirstOfInode(tree, r)
    ensures IsNew(c, es, hashed, tree, r)
            <==> !(KnownByPath(es, tree[r]) || (hashed(tree[r]) && KnownByHash(c, es, tree[r])))
  {
    var f := tree[r];
    assert PathHit(es, f) <==> KnownByPath(es, f) by {
      if e :| e in es && PathMatches(e, f) { assert KnownByPath(es, f); }
      if e :| e in es && e.path == f.path && e.size == |f.data| && e.mtime == f.mtime { assert PathMatches(e, f); }
    }
    assert ShaHit(c, es, f) <==> KnownByHash(c, es, f) by {
      if e :| e in es && ShaMatches(c, e, f) { assert KnownByHash(c, es, f); }
      if e :| e in es && e.sha == c.sha(f.data) { assert ShaMatches(c, e, f); }
    }
  }
}
