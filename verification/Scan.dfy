/** A scan: which object id each regular file is given, by inode, by the index, or anew. */
module Scan {
  import opened Types
  import opened Int64
  import opened LineLog
  import opened OnDisk
  import opened ObjectIndex

  datatype Inode = Inode(dev: int, ino: int)

  /** A regular file as the walk comes upon it. */
  datatype FileStat = FileStat(path: Bytes, inode: Inode, mtime: Time, data: Bytes)

  /** A file line of a snapshot. */
  datatype SnapFile = SnapFile(path: Bytes, id: string, size: nat, mtime: Time)

  // ---------------------------------------------------------------- the choice of an id

  predicate PathMatches(e: Entry, f: FileStat) { e.path == f.path && e.size == |f.data| && e.mtime == f.mtime }

  predicate ShaMatches(c: Codec, e: Entry, f: FileStat) { e.sha == c.sha(f.data) }

  ghost predicate PathHit(es: seq<Entry>, f: FileStat) { exists e :: e in es && PathMatches(e, f) }

  ghost predicate ShaHit(c: Codec, es: seq<Entry>, f: FileStat) { exists e :: e in es && ShaMatches(c, e, f) }

  /** Whether files are hashed, and which of them then cannot be read. */
  datatype HashMode = HashMode(on: bool, fails: FileStat -> bool)

  /** The files that do get hashed. */
  function Hashed(mode: HashMode): (h: FileStat -> bool)
    ensures forall f :: h(f) <==> mode.on && !mode.fails(f)
  {
    f => mode.on && !mode.fails(f)
  }

  /** File `i` needs hashing, being the first of its inode and not in the index by its path, and cannot be. */
  ghost predicate HashFails(es: seq<Entry>, mode: HashMode, tree: seq<FileStat>, i: nat)
    requires i < |tree|
  {
    FirstOfInode(tree, i) && !PathHit(es, tree[i]) && mode.on && mode.fails(tree[i])
  }

  ghost predicate AnyHashFails(es: seq<Entry>, mode: HashMode, tree: seq<FileStat>, n: nat)
    requires n <= |tree|
  {
    exists i :: 0 <= i < n && HashFails(es, mode, tree, i)
  }

  lemma OneMoreHashed(es: seq<Entry>, mode: HashMode, tree: seq<FileStat>, n: nat)
    requires n < |tree|
    ensures AnyHashFails(es, mode, tree, n + 1) <==> AnyHashFails(es, mode, tree, n) || HashFails(es, mode, tree, n)
  {
    hide HashFails;
  }

  predicate FirstOfInode(tree: seq<FileStat>, i: nat)
    requires i < |tree|
  {
    forall j :: 0 <= j < i ==> tree[j].inode != tree[i].inode
  }

  /** `hashed` says which files get hashed: in hash mode those that can be read, otherwise none. */
  ghost predicate IsNew(c: Codec, es: seq<Entry>, hashed: FileStat -> bool, tree: seq<FileStat>, i: nat)
    requires i < |tree|
  {
    FirstOfInode(tree, i) && !PathHit(es, tree[i]) && !(hashed(tree[i]) && ShaHit(c, es, tree[i]))
  }

  ghost function NewBefore(c: Codec, es: seq<Entry>, hashed: FileStat -> bool, tree: seq<FileStat>, i: nat): (n: nat)
    requires i <= |tree|
    ensures n <= i
  {
    if i == 0 then 0
    else NewBefore(c, es, hashed, tree, i - 1) + if IsNew(c, es, hashed, tree, i - 1) then 1 else 0
  }

  /** The id of file `i`: that of its inode if the inode was met before; else that of an entry with its path,
      size and time; else, if it is hashed, that of an entry with its hash; else the next free one.  An entry's
      id is taken as far as the object table keeps it. */
  ghost predicate IdChosen(c: Codec, es: seq<Entry>, hashed: FileStat -> bool, tree: seq<FileStat>,
          snap: seq<SnapFile>, i: nat)
    requires i < |tree| && i < |snap|
  {
    if !FirstOfInode(tree, i) then forall j :: 0 <= j < i && tree[j].inode == tree[i].inode ==> snap[j].id == snap[i].id
    else if PathHit(es, tree[i]) then exists e :: e in es && PathMatches(e, tree[i]) && Cut(e.id) == snap[i].id
    else if hashed(tree[i]) && ShaHit(c, es, tree[i]) then
      exists e :: e in es && ShaMatches(c, e, tree[i]) && Cut(e.id) == snap[i].id
    else snap[i].id == FormatId((NextId(es) + NewBefore(c, es, hashed, tree, i)) % TWO_64)
  }

  /** As much of an id as the object table keeps. */
  function Cut(id: string): (r: string)
    ensures r <= id && (|id| <= ID_LENGTH ==> r == id)
  {
    if |id| <= ID_LENGTH then id else id[..ID_LENGTH]
  }

  predicate LineFor(s: SnapFile, f: FileStat) { s.path == f.path && s.size == |f.data| && s.mtime == f.mtime }

  /** The first `n` files of the tree have been written to the snapshot. */
  ghost predicate ScannedTo(c: Codec, es: seq<Entry>, hashed: FileStat -> bool, tree: seq<FileStat>,
          snap: seq<SnapFile>, n: nat) {
    && n == |snap| <= |tree|
    && forall i :: 0 <= i < n ==> LineFor(snap[i], tree[i]) && IdChosen(c, es, hashed, tree, snap, i)
  }

  ghost predicate Scanned(c: Codec, es: seq<Entry>, hashed: FileStat -> bool, tree: seq<FileStat>,
          snap: seq<SnapFile>) {
    ScannedTo(c, es, hashed, tree, snap, |tree|)
  }

  // ---------------------------------------------------------------- the object table and the scanner

  /** The objects of one run by inode; what is kept of an object is its id. */
  class ObjectTable {
    var ids: map<Inode, string>
    var nextId: nat

    constructor (next: nat)
      ensures ids == map[] && nextId == next
    {
      ids, nextId := map[], next;
    }

    method Find(inode: Inode) returns (r: Option<string>)
      ensures r == if inode in ids then Some(ids[inode]) else None
    {
      if inode in ids { return Some(ids[inode]); }
      return None;
    }

    method Insert(inode: Inode) returns (id: string)
      modifies this
      ensures id == FormatId(old(nextId)) && ids == old(ids)[inode := id] && nextId == (old(nextId) + 1) % TWO_64
    {
      id := FormatId(nextId);
      ids := ids[inode := id];
      nextId := (nextId + 1) % TWO_64;
    }

    /** Keeps an id from the index, cut to the length of the object's field. */
    method InsertWithId(inode: Inode, id: string) returns (kept: string)
      modifies this
      ensures kept == Cut(id) && ids == old(ids)[inode := kept] && nextId == old(nextId)
      ensures if |id| <= 31 then kept == id else kept == id[..31]
    {
      kept := Cut(id);
      ids := ids[inode := kept];
    }
  }

  /** The table knows exactly the inodes met so far, each with the id its files were given. */
  ghost predicate TableHolds(ids: map<Inode, string>, tree: seq<FileStat>, snap: seq<SnapFile>, n: nat)
    requires n == |snap| <= |tree|
  {
    && (forall i :: 0 <= i < n ==> tree[i].inode in ids && ids[tree[i].inode] == snap[i].id)
    && (forall inode :: inode in ids ==> exists i :: 0 <= i < n && tree[i].inode == inode)
  }

  /** How an inode met for the first time gets its id, the next free number being `next`. */
  ghost predicate Chosen(c: Codec, es: seq<Entry>, hashed: FileStat -> bool, f: FileStat, next: nat,
          id: string, after: nat) {
    if PathHit(es, f) then after == next && exists e :: e in es && PathMatches(e, f) && Cut(e.id) == id
    else if hashed(f) && ShaHit(c, es, f) then
      after == next && exists e :: e in es && ShaMatches(c, e, f) && Cut(e.id) == id
    else id == FormatId(next) && after == (next + 1) % TWO_64
  }

  lemma IdChosenEarlier(c: Codec, es: seq<Entry>, hashed: FileStat -> bool, tree: seq<FileStat>,
          snap: seq<SnapFile>, line: SnapFile, i: nat)
    requires i < |snap| < |tree| && IdChosen(c, es, hashed, tree, snap, i)
    ensures IdChosen(c, es, hashed, tree, snap + [line], i)
  {
    assert (snap + [line])[i] == snap[i];
    hide PathHit, ShaHit, NewBefore, FormatId, NextId, PathMatches, ShaMatches;
  }

  lemma ScannedOneMore(c: Codec, es: seq<Entry>, hashed: FileStat -> bool, tree: seq<FileStat>,
          snap: seq<SnapFile>, line: SnapFile)
    requires ScannedTo(c, es, hashed, tree, snap, |snap|) && |snap| < |tree|
    requires LineFor(line, tree[|snap|]) && IdChosen(c, es, hashed, tree, snap + [line], |snap|)
    ensures ScannedTo(c, es, hashed, tree, snap + [line], |snap| + 1)
  {
    var t := snap + [line];
    hide IdChosen, LineFor;
    forall i | 0 <= i < |t| ensures LineFor(t[i], tree[i]) && IdChosen(c, es, hashed, tree, t, i) {
      if i < |snap| { IdChosenEarlier(c, es, hashed, tree, snap, line, i); }
    }
  }

  /** A second name of an inode gets the first one's id. */
  lemma KnownInode(c: Codec, es: seq<Entry>, hashed: FileStat -> bool, tree: seq<FileStat>,
          snap: seq<SnapFile>, ids: map<Inode, string>, line: SnapFile)
    requires |snap| < |tree| && TableHolds(ids, tree, snap, |snap|)
    requires tree[|snap|].inode in ids && line.id == ids[tree[|snap|].inode]
    ensures IdChosen(c, es, hashed, tree, snap + [line], |snap|) && !FirstOfInode(tree, |snap|)
    ensures TableHolds(ids, tree, snap + [line], |snap| + 1)
    ensures NewBefore(c, es, hashed, tree, |snap| + 1) == NewBefore(c, es, hashed, tree, |snap|)
  {
    hide FormatId, NextId, PathHit, ShaHit;
    var n := |snap|;
    var i :| 0 <= i < n && tree[i].inode == tree[n].inode;
    assert !FirstOfInode(tree, n);
  }

  lemma NewInodeTable(tree: seq<FileStat>, snap: seq<SnapFile>, ids: map<Inode, string>, line: SnapFile)
    requires |snap| < |tree| && TableHolds(ids, tree, snap, |snap|) && tree[|snap|].inode !in ids
    ensures TableHolds(ids[tree[|snap|].inode := line.id], tree, snap + [line], |snap| + 1)
    ensures FirstOfInode(tree, |snap|)
  {}

  lemma NewInode(c: Codec, es: seq<Entry>, hashed: FileStat -> bool, tree: seq<FileStat>, snap: seq<SnapFile>,
          line: SnapFile, after: nat)
    requires |snap| < |tree| && FirstOfInode(tree, |snap|)
    requires var next := (NextId(es) + NewBefore(c, es, hashed, tree, |snap|)) % TWO_64;
             Chosen(c, es, hashed, tree[|snap|], next, line.id, after)
    ensures IdChosen(c, es, hashed, tree, snap + [line], |snap|)
    ensures after == (NextId(es) + NewBefore(c, es, hashed, tree, |snap| + 1)) % TWO_64
    ensures var known := PathHit(es, tree[|snap|]) || (hashed(tree[|snap|]) && ShaHit(c, es, tree[|snap|]));
            NewBefore(c, es, hashed, tree, |snap| + 1)
            == NewBefore(c, es, hashed, tree, |snap|) + if known then 0 else 1
  {
    hide FormatId, NextId, PathHit, ShaHit, FirstOfInode, PathMatches, ShaMatches;
    var n := |snap|;
    assert (snap + [line])[n] == line;
    assert NewBefore(c, es, hashed, tree, n + 1)
        == NewBefore(c, es, hashed, tree, n) + if IsNew(c, es, hashed, tree, n) then 1 else 0;
    Wraps(NextId(es) + NewBefore(c, es, hashed, tree, n));
  }

  lemma Wraps(x: nat)
    ensures (x % TWO_64 + 1) % TWO_64 == (x + 1) % TWO_64
  {}

  class Scanner {
    const index: Index
    const objects: ObjectTable
    var written: seq<SnapFile>
    var newObjects: nat
    var alreadyPacked: nat
    var hadError: bool

    constructor (index: Index, objects: ObjectTable)
      ensures this.index == index && this.objects == objects && written == [] && !hadError
      ensures newObjects == alreadyPacked == 0
    {
      this.index, this.objects := index, objects;
      written, newObjects, alreadyPacked, hadError := [], 0, 0, false;
    }

    ghost predicate Running(c: Codec, es: seq<Entry>, mode: HashMode, tree: seq<FileStat>)
      reads this, index, objects
    {
      var hashed := Hashed(mode);
      && index.Holds(es)
      && |written| <= |tree| && (hadError <==> AnyHashFails(es, mode, tree, |written|))
      && newObjects == NewBefore(c, es, hashed, tree, |written|) && newObjects + alreadyPacked == |objects.ids|
      && ScannedTo(c, es, hashed, tree, written, |written|)
      && TableHolds(objects.ids, tree, written, |written|)
      && objects.nextId == (NextId(es) + NewBefore(c, es, hashed, tree, |written|)) % TWO_64
    }

    lemma Started(c: Codec, es: seq<Entry>, mode: HashMode, tree: seq<FileStat>)
      requires index.Holds(es) && written == [] && objects.ids == map[] && objects.nextId == index.nextId && !hadError
      requires newObjects == alreadyPacked == 0
      ensures Running(c, es, mode, tree)
    {
      NextIdBounds(es);
      NothingScanned(c, es, Hashed(mode), tree);
    }

    lemma Finished(c: Codec, es: seq<Entry>, mode: HashMode, tree: seq<FileStat>)
      requires Running(c, es, mode, tree) && |written| == |tree|
      ensures Scanned(c, es, Hashed(mode), tree, written)
      ensures hadError <==> AnyHashFails(es, mode, tree, |tree|)
      ensures newObjects == NewBefore(c, es, Hashed(mode), tree, |tree|)
    {}

    /** The id of an inode met for the first time. */
    method ChooseId(c: Codec, mode: HashMode, f: FileStat, ghost es: seq<Entry>) returns (id: string)
      requires index.Holds(es) && AllFit(es) && Fits(|f.data|, f.mtime) && Sound(c)
      modifies this`newObjects, this`alreadyPacked, this`hadError, objects
      ensures objects.ids == old(objects.ids)[f.inode := id]
      ensures Chosen(c, es, Hashed(mode), f, old(objects.nextId), id, objects.nextId)
      ensures hadError <==> old(hadError) || (!PathHit(es, f) && mode.on && mode.fails(f))
      ensures var known := PathHit(es, f) || (Hashed(mode)(f) && ShaHit(c, es, f));
              && newObjects == old(newObjects) + (if known then 0 else 1)
              && alreadyPacked == old(alreadyPacked) + (if known then 1 else 0)
      ensures index.Holds(es)
    {
      hide Index.Holds, FormatId;
      assert c.sha(f.data) != "";
      var hit := index.FindByPath(f.path, |f.data|, f.mtime, es);
      assert hit.Some? <==> PathHit(es, f);
      assert hit.Some? ==> PathMatches(hit.value, f);
      if hit.None? && mode.on {
        if mode.fails(f) {
          hadError := true;
        } else {
          hit := index.FindBySha(c.sha(f.data), es);
          assert hit.Some? <==> ShaHit(c, es, f);
          assert hit.Some? ==> ShaMatches(c, hit.value, f);
        }
      }
      if hit.Some? {
        id := objects.InsertWithId(f.inode, hit.value.id);
        alreadyPacked := alreadyPacked + 1;
      } else {
        id := objects.Insert(f.inode);
        newObjects := newObjects + 1;
      }
    }

    /** The regular-file case of `handle_entry`. */
    method HandleFile(c: Codec, mode: HashMode, f: FileStat, ghost es: seq<Entry>, ghost tree: seq<FileStat>)
      requires Running(c, es, mode, tree) && AllFit(es) && Fits(|f.data|, f.mtime)
      requires Sound(c) && |written| < |tree| && tree[|written|] == f
      modifies this, objects
      ensures Running(c, es, mode, tree) && |written| == old(|written|) + 1
    {
      ghost var hashed := Hashed(mode);
      hide ScannedTo, TableHolds, IdChosen, Chosen, NewBefore, Index.Holds, NextId, FormatId, FirstOfInode, PathHit,
           AnyHashFails;
      ghost var snap := written;
      OneMoreHashed(es, mode, tree, |snap|);
      var known := objects.Find(f.inode);
      var id;
      ghost var line;
      if known.Some? {
        id := known.value;
        line := SnapFile(f.path, id, |f.data|, f.mtime);
        KnownInode(c, es, hashed, tree, snap, objects.ids, line);
      } else {
        ghost var ids := objects.ids;
        id := ChooseId(c, mode, f, es);
        line := SnapFile(f.path, id, |f.data|, f.mtime);
        NewInodeTable(tree, snap, ids, line);
        NewInode(c, es, hashed, tree, snap, line, objects.nextId);
      }
      ScannedOneMore(c, es, hashed, tree, snap, line);
      written := written + [SnapFile(f.path, id, |f.data|, f.mtime)];
    }
  }

  lemma NothingScanned(c: Codec, es: seq<Entry>, hashed: FileStat -> bool, tree: seq<FileStat>)
    ensures ScannedTo(c, es, hashed, tree, [], 0) && TableHolds(map[], tree, [], 0)
    ensures NextId(es) % TWO_64 == (NextId(es) + NewBefore(c, es, hashed, tree, 0)) % TWO_64
  {}

  ghost predicate TreeFits(tree: seq<FileStat>) { forall i :: 0 <= i < |tree| ==> Fits(|tree[i].data|, tree[i].mtime) }

  /** `tp_scan` over the regular files of a tree, in the order of the walk; -1 if the index cannot be read, 1 if some
      file could not be hashed. */
  method TpScan(c: Codec, log: Bytes, mode: HashMode, tree: seq<FileStat>) returns (rc: int, snap: seq<SnapFile>)
    requires Sound(c) && TreeFits(tree) && (Loaded(c, ReadLines(log)).Some? ==> AllFit(Loaded(c, ReadLines(log)).value))
    ensures rc == 0 || rc == 1 || rc == -1
    ensures rc == -1 <==> Loaded(c, ReadLines(log)) == None
    ensures rc != -1 ==> Scanned(c, Loaded(c, ReadLines(log)).value, Hashed(mode), tree, snap)
    ensures rc != -1 ==> (rc == 1 <==> AnyHashFails(Loaded(c, ReadLines(log)).value, mode, tree, |tree|))
  {
    hide *;
    snap := [];
    var index := new Index();
    rc := index.Load(c, log);
    if rc != 0 { return; }
    ghost var es := Loaded(c, ReadLines(log)).value;
    var objects := new ObjectTable(index.nextId);
    var scanner := new Scanner(index, objects);
    scanner.Started(c, es, mode, tree);
    for i := 0 to |tree|
      invariant scanner.Running(c, es, mode, tree) && |scanner.written| == i
    {
      FileFits(tree, i);
      scanner.HandleFile(c, mode, tree[i], es, tree);
    }
    scanner.Finished(c, es, mode, tree);
    snap := scanner.written;
    rc := if scanner.hadError then 1 else 0;
  }

  lemma FileFits(tree: seq<FileStat>, i: nat)
    requires TreeFits(tree) && i < |tree|
    ensures Fits(|tree[i].data|, tree[i].mtime)
  {}
}
