/** The object index in memory: `tp_index_load`, its three hash tables, the lookups, and the next free id. */
module ObjectIndex {
  import opened Types
  import opened Decimals
  import opened Int64
  import opened LineLog
  import opened OnDisk

  // ---------------------------------------------------------------- the flattened path key

  /** The low `n` bytes of a number, least significant first. */
  function LowBytes(u: nat, n: nat): (b: Bytes)
    ensures |b| == n
  {
    if n == 0 then [] else [u % 256] + LowBytes(u / 256, n - 1)
  }

  /** A signed 64-bit field as it lies in memory. */
  function Word(x: int): (b: Bytes)
    ensures |b| == 8
  {
    LowBytes(x % TWO_64, 8)
  }

  function PathKey(path: Bytes, size: int, mtime: Time): Bytes {
    Word(size) + Word(mtime.sec) + Word(mtime.nsec) + path
  }

  function KeyOf(e: Entry): Bytes { PathKey(e.path, e.size, e.mtime) }

  /** The range of the C types the fields are read into. */
  predicate Fits(size: int, mtime: Time) { IsInt64(size) && IsInt64(mtime.sec) && IsInt64(mtime.nsec) }

  ghost predicate AllFit(es: seq<Entry>) { forall e :: e in es ==> Fits(e.size, e.mtime) }

  function Power256(n: nat): (p: nat)
    ensures p > 0
  {
    if n == 0 then 1 else 256 * Power256(n - 1)
  }

  lemma {:induction false} LowBytesInjective(u: nat, v: nat, n: nat)
    requires u < Power256(n) && v < Power256(n) && LowBytes(u, n) == LowBytes(v, n)
    ensures u == v
  {
    if n > 0 {
      var a, b := LowBytes(u, n), LowBytes(v, n);
      assert a[0] == u % 256 && b[0] == v % 256;
      assert a[1..] == LowBytes(u / 256, n - 1) && b[1..] == LowBytes(v / 256, n - 1);
      LowBytesInjective(u / 256, v / 256, n - 1);
    }
  }

  lemma EightBytes()
    ensures Power256(8) == TWO_64
  {
    assert Power256(4) == 0x1_0000_0000;
  }

  lemma WordInjective(x: int, y: int)
    requires IsInt64(x) && IsInt64(y) && Word(x) == Word(y)
    ensures x == y
  {
    EightBytes();
    hide LowBytes, Power256;
    LowBytesInjective(x % TWO_64, y % TWO_64, 8);
    SameRemainder(x);
    SameRemainder(y);
  }

  lemma SameRemainder(x: int)
    requires IsInt64(x)
    ensures x % TWO_64 == if x >= 0 then x else x + TWO_64
  {}

  lemma SplitKey(a: Bytes, b: Bytes, c: Bytes, d: Bytes)
    requires |a| == 8 && |b| == 8 && |c| == 8
    ensures var k := a + b + c + d; k[..8] == a && k[8..16] == b && k[16..24] == c && k[24..] == d
  {}

  /** No two different combinations of path, size and modification time share a key. */
  lemma PathKeyInjective(p: Bytes, size: int, mtime: Time, q: Bytes, other: int, time: Time)
    requires Fits(size, mtime) && Fits(other, time) && PathKey(p, size, mtime) == PathKey(q, other, time)
    ensures p == q && size == other && mtime == time
  {
    hide Word;
    SplitKey(Word(size), Word(mtime.sec), Word(mtime.nsec), p);
    SplitKey(Word(other), Word(time.sec), Word(time.nsec), q);
    WordInjective(size, other);
    WordInjective(mtime.sec, time.sec);
    WordInjective(mtime.nsec, time.nsec);
  }

  // ---------------------------------------------------------------- numbered ids

  predicate Shaped(id: string) { |id| >= 2 && id[0] == 'O' && AllDigits(id[1..]) }

  /** The number of an id of the form `O<n>`. */
  function Number(id: string): Option<nat> { if Shaped(id) then Some(Decimal(id[1..])) else None }

  /** What `numeric_suffix` makes of it: 0 if the id has another form, and no more than the largest 64-bit number. */
  function NumericSuffix(id: string): (n: nat)
    ensures n <= UINT64_MAX
  {
    match Number(id)
    case None => 0
    case Some(n) => if n > UINT64_MAX then UINT64_MAX else n
  }

  /** The unsigned sum `suffix + 1` wraps round at the largest suffix. */
  function Raised(next: nat, id: string): nat {
    var above := (NumericSuffix(id) + 1) % TWO_64;
    if above > next then above else next
  }

  function NextId(es: seq<Entry>): nat {
    if es == [] then 1 else Raised(NextId(es[..|es| - 1]), es[|es| - 1].id)
  }

  lemma {:induction false} NextIdBounds(es: seq<Entry>)
    ensures 1 <= NextId(es) <= UINT64_MAX
    ensures forall e :: e in es && Number(e.id).Some? && Number(e.id).value < UINT64_MAX
              ==> Number(e.id).value < NextId(es)
  {
    if es != [] {
      hide Number;
      var n := |es| - 1;
      NextIdBounds(es[..n]);
      assert es == es[..n] + [es[n]];
    }
  }

  /** The next id is above every numbered id of the index exactly while no number reaches the largest 64-bit one. */
  lemma NextIdFreshExactly(es: seq<Entry>)
    ensures (forall e :: e in es && Number(e.id).Some? ==> Number(e.id).value < NextId(es))
            <==> (forall e :: e in es && Number(e.id).Some? ==> Number(e.id).value < UINT64_MAX)
  {
    hide Number, NextId;
    NextIdBounds(es);
  }

  lemma RaisedTo(next: nat, id: string)
    ensures Raised(next, id) == next || Raised(next, id) == NumericSuffix(id) + 1
  {
    hide NumericSuffix;
  }

  /** And no larger than it must be: 1, or one above some entry's. */
  lemma {:induction false} NextIdLeast(es: seq<Entry>)
    ensures NextId(es) == 1 || exists e :: e in es && NextId(es) == NumericSuffix(e.id) + 1
  {
    hide Raised, NumericSuffix;
    if es != [] {
      var n := |es| - 1;
      NextIdLeast(es[..n]);
      RaisedTo(NextId(es[..n]), es[n].id);
      assert es[n] in es && forall e :: e in es[..n] ==> e in es;
    }
  }

  /** The id given to a new object. */
  function FormatId(n: nat): string { "O" + Digits(n) }

  /** Ids are told apart by their numbers. */
  lemma NumberOfFormat(n: nat)
    ensures Number(FormatId(n)) == Some(n)
  {
    assert FormatId(n)[1..] == Digits(n);
    DecimalOfDigits(n);
  }

  // ---------------------------------------------------------------- loading

  /** A line without the newlines and carriage returns at its end. */
  function Stripped(line: Bytes): (r: Bytes)
    ensures r <= line
    ensures r != [] ==> r[|r| - 1] != NEWLINE && r[|r| - 1] != CARRIAGE_RETURN
    ensures forall i :: |r| <= i < |line| ==> line[i] == NEWLINE || line[i] == CARRIAGE_RETURN
  {
    if line == [] || (line[|line| - 1] != NEWLINE && line[|line| - 1] != CARRIAGE_RETURN) then line
    else Stripped(line[..|line| - 1])
  }

  /** The entries of all the lines, empty ones apart, if every one of them can be read. */
  function Loaded(c: Codec, lines: seq<Bytes>): Option<seq<Entry>> {
    if lines == [] then Some([])
    else
      match Loaded(c, lines[..|lines| - 1])
      case None => None
      case Some(es) =>
        var line := Stripped(lines[|lines| - 1]);
        if line == [] then Some(es)
        else
          match c.parse(line)
          case None => None
          case Some(e) => Some(es + [e])
  }

  lemma StrippedText(c: Codec, e: Entry)
    requires LineSound(c, e)
    ensures Stripped(c.text(e)) == c.text(e)
  {
    var t := c.text(e);
    assert t[|t| - 1] in t;
  }

  lemma {:induction false} LoadedTexts(c: Codec, es: seq<Entry>)
    requires Sound(c) && AllWritable(es)
    ensures Loaded(c, Texts(c, es)) == Some(es)
  {
    if es != [] {
      var n := |es| - 1;
      LoadedTexts(c, es[..n]);
      assert Texts(c, es)[..n] == Texts(c, es[..n]);
      assert LineSound(c, es[n]);
      StrippedText(c, es[n]);
      assert es[..n] + [es[n]] == es;
    }
  }

  ghost predicate Readable(c: Codec, line: Bytes) { Stripped(line) == [] || c.parse(Stripped(line)).Some? }

  /** One line that is not empty and cannot be read fails the whole index. */
  lemma {:induction false} LoadedExactly(c: Codec, lines: seq<Bytes>)
    ensures Loaded(c, lines).Some? <==> forall i :: 0 <= i < |lines| ==> Readable(c, lines[i])
  {
    hide Stripped;
    if lines != [] { LoadedExactly(c, lines[..|lines| - 1]); }
  }

  /** A whole index loads, as exactly the entries its lines hold. */
  lemma WholeIndexLoads(c: Codec, log: Bytes)
    requires Sound(c) && Terminated(log) && LogHolds(c, log, Entries(c, log)) && AllWritable(Entries(c, log))
    ensures Loaded(c, ReadLines(log)) == Some(Entries(c, log))
  {
    ReadLinesClean(log);
    LoadedTexts(c, Entries(c, log));
  }

  // ---------------------------------------------------------------- the tables

  /** The nodes of a hash table that have a key. */
  function Bucket<K>(table: map<K, seq<Entry>>, k: K): seq<Entry> { if k in table then table[k] else [] }

  function Inserted<K>(table: map<K, seq<Entry>>, k: K, e: Entry): map<K, seq<Entry>> {
    table[k := [e] + Bucket(table, k)]
  }

  ghost predicate ByPath(table: map<Bytes, seq<Entry>>, es: seq<Entry>) {
    forall k, e :: e in Bucket(table, k) <==> e in es && KeyOf(e) == k
  }

  ghost predicate ById(table: map<string, seq<Entry>>, es: seq<Entry>) {
    forall k, e :: e in Bucket(table, k) <==> e in es && e.id == k
  }

  /** Entries without a hash are in no bucket. */
  ghost predicate BySha(table: map<string, seq<Entry>>, es: seq<Entry>) {
    forall k, e :: e in Bucket(table, k) <==> e in es && e.sha == k && k != ""
  }

  lemma InsertedBucket<K>(table: map<K, seq<Entry>>, k: K, e: Entry)
    ensures forall j, x :: x in Bucket(Inserted(table, k, e), j) <==> x in Bucket(table, j) || (j == k && x == e)
  {}

  lemma InsertByPath(table: map<Bytes, seq<Entry>>, es: seq<Entry>, e: Entry)
    requires ByPath(table, es)
    ensures ByPath(Inserted(table, KeyOf(e), e), es + [e])
  {
    InsertedBucket(table, KeyOf(e), e);
    hide KeyOf, Bucket, Inserted;
  }

  lemma InsertById(table: map<string, seq<Entry>>, es: seq<Entry>, e: Entry)
    requires ById(table, es)
    ensures ById(Inserted(table, e.id, e), es + [e])
  {
    InsertedBucket(table, e.id, e);
    hide Bucket, Inserted;
  }

  lemma ByShaFrom(table: map<string, seq<Entry>>, es: seq<Entry>)
    requires forall k, x :: x in Bucket(table, k) <==> x in es && x.sha == k && k != ""
    ensures BySha(table, es)
  {
    hide Bucket;
  }

  lemma HashedBucket(table: map<string, seq<Entry>>, es: seq<Entry>, e: Entry, k: string, x: Entry)
    requires BySha(table, es) && e.sha != ""
    ensures x in Bucket(Inserted(table, e.sha, e), k) <==> x in es + [e] && x.sha == k && k != ""
  {
    InsertedBucket(table, e.sha, e);
    hide Bucket, Inserted;
    assert x in Bucket(table, k) <==> x in es && x.sha == k && k != "";
  }

  lemma InsertHashed(table: map<string, seq<Entry>>, es: seq<Entry>, e: Entry)
    requires BySha(table, es) && e.sha != ""
    ensures BySha(Inserted(table, e.sha, e), es + [e])
  {
    hide *;
    var t, fs := Inserted(table, e.sha, e), es + [e];
    forall k, x ensures x in Bucket(t, k) <==> x in fs && x.sha == k && k != "" {
      HashedBucket(table, es, e, k, x);
    }
    ByShaFrom(t, fs);
  }

  lemma InsertUnhashed(table: map<string, seq<Entry>>, es: seq<Entry>, e: Entry)
    requires BySha(table, es) && e.sha == ""
    ensures BySha(table, es + [e])
  {
    hide Bucket;
    forall k, x ensures x in Bucket(table, k) <==> x in es + [e] && x.sha == k && k != "" {
      assert x in Bucket(table, k) <==> x in es && x.sha == k && k != "";
    }
  }

  lemma NextIdMore(es: seq<Entry>, e: Entry)
    ensures NextId(es + [e]) == Raised(NextId(es), e.id)
  {
    assert (es + [e])[..|es|] == es;
  }

  /** A hash lookup finds some node with the key. */
  method AnyOf(found: seq<Entry>) returns (e: Entry)
    requires found != []
    ensures e in found
  {
    assert found[0] in found;
    e :| e in found;
  }

  class Index {
    var byPath: map<Bytes, seq<Entry>>
    var byId: map<string, seq<Entry>>
    var bySha: map<string, seq<Entry>>
    var nextId: nat

    constructor ()
      ensures Holds([])
    {
      byPath, byId, bySha, nextId := map[], map[], map[], 1;
    }

    /** The tables hold the entries `es`, each under its own keys, and nothing else. */
    ghost predicate Holds(es: seq<Entry>)
      reads this
    {
      ByPath(byPath, es) && ById(byId, es) && BySha(bySha, es) && nextId == NextId(es)
    }

    /** `load_line_cb` for a line that could be read. */
    method Insert(e: Entry, ghost es: seq<Entry>)
      requires Holds(es)
      modifies this
      ensures Holds(es + [e])
    {
      hide ByPath, ById, BySha, KeyOf, Inserted, NumericSuffix, NextId;
      InsertByPath(byPath, es, e);
      InsertById(byId, es, e);
      if e.sha != "" { InsertHashed(bySha, es, e); } else { InsertUnhashed(bySha, es, e); }
      NextIdMore(es, e);
      byPath := Inserted(byPath, KeyOf(e), e);
      byId := Inserted(byId, e.id, e);
      if e.sha != "" { bySha := Inserted(bySha, e.sha, e); }
      var above := (NumericSuffix(e.id) + 1) % TWO_64;
      if above > nextId { nextId := above; }
    }

    method Free()
      modifies this
      ensures Holds([])
    {
      byPath, byId, bySha, nextId := map[], map[], map[], 1;
    }

    /** Reads the index: 0 with every entry in the tables, or -1 with none if some line cannot be read. */
    method Load(c: Codec, log: Bytes) returns (rc: int)
      modifies this
      ensures rc == 0 || rc == -1
      ensures rc == 0 <==> Loaded(c, ReadLines(log)).Some?
      ensures rc == 0 ==> Holds(Loaded(c, ReadLines(log)).value)
      ensures rc == -1 ==> Holds([])
    {
      Free();
      var lines := ReadLines(log);
      rc := 0;
      var i := 0;
      ghost var es := [];
      while i < |lines| && rc == 0
        invariant 0 <= i <= |lines| && (rc == 0 || rc == -1)
        invariant rc == 0 ==> Loaded(c, lines[..i]) == Some(es) && Holds(es)
        invariant rc == -1 ==> Loaded(c, lines) == None
      {
        hide Holds;
        LoadedStep(c, lines, i);
        var line := Stripped(lines[i]);
        if line != [] {
          match c.parse(line) {
            case None =>
              rc := -1;
              LoadedNone(c, lines, i + 1);
            case Some(e) =>
              Insert(e, es);
              es := es + [e];
          }
        }
        i := i + 1;
      }
      if rc == 0 {
        assert lines[..i] == lines;
      } else {
        Free();
      }
    }

    method FindByPath(path: Bytes, size: int, mtime: Time, ghost es: seq<Entry>) returns (r: Option<Entry>)
      requires Holds(es) && AllFit(es) && Fits(size, mtime)
      ensures r.Some? ==> r.value in es && r.value.path == path && r.value.size == size && r.value.mtime == mtime
      ensures r.None? ==> forall e :: e in es ==> !(e.path == path && e.size == size && e.mtime == mtime)
    {
      hide PathKey;
      var found := Bucket(byPath, PathKey(path, size, mtime));
      if found == [] { return None; }
      var e := AnyOf(found);
      assert KeyOf(e) == PathKey(path, size, mtime);
      PathKeyInjective(path, size, mtime, e.path, e.size, e.mtime);
      return Some(e);
    }

    method FindBySha(sha: string, ghost es: seq<Entry>) returns (r: Option<Entry>)
      requires Holds(es)
      ensures r.Some? ==> r.value in es && r.value.sha == sha && sha != ""
      ensures r.None? ==> sha == "" || forall e :: e in es ==> e.sha != sha
    {
      if sha == "" { return None; }
      var found := Bucket(bySha, sha);
      if found == [] { return None; }
      var e := AnyOf(found);
      return Some(e);
    }

    method FindById(id: string, ghost es: seq<Entry>) returns (r: Option<Entry>)
      requires Holds(es)
      ensures r.Some? ==> r.value in es && r.value.id == id
      ensures r.None? ==> forall e :: e in es ==> e.id != id
    {
      var found := Bucket(byId, id);
      if found == [] { return None; }
      var e := AnyOf(found);
      return Some(e);
    }
  }

  lemma LoadedStep(c: Codec, lines: seq<Bytes>, i: nat)
    requires i < |lines|
    ensures Loaded(c, lines[..i + 1]) ==
            match Loaded(c, lines[..i])
            case None => None
            case Some(es) =>
              var line := Stripped(lines[i]);
              if line == [] then Some(es)
              else
                match c.parse(line)
                case None => None
                case Some(e) => Some(es + [e])
  {
    assert lines[..i + 1][..i] == lines[..i];
  }

  lemma {:induction false} LoadedNone(c: Codec, lines: seq<Bytes>, i: nat)
    requires i <= |lines| && Loaded(c, lines[..i]) == None
    ensures Loaded(c, lines) == None
  {
    if i == |lines| {
      assert lines[..i] == lines;
    } else {
      assert lines[..|lines| - 1][..i] == lines[..i];
      LoadedNone(c, lines[..|lines| - 1], i);
    }
  }
}
