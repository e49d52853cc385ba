/** The repository on disk, and what must hold of it at every moment.

    Pack directory names are `pack-NNNNNN` with a suffix; a name is modelled by its number and kind.
    Serialised forms are opaque: `Codec` says what is assumed of them. */
module OnDisk {
  import opened Types
  import opened LineLog

  datatype Name = Archive(n: nat) | Manifest(n: nat) | ArchivePart(n: nat) | ManifestPart(n: nat) {
    predicate IsPart() { ArchivePart? || ManifestPart? }
  }

  /** Pack numbers of more digits than this are not recognised when the directory is scanned. */
  const PACK_LIMIT: nat := 1000000

  datatype Member = Member(path: Bytes, data: Bytes)

  datatype ManifestEntry = ManifestEntry(id: string, path: Bytes, size: nat, sha: string)

  datatype File = ArchiveFile(members: seq<Member>) | ManifestFile(entries: seq<ManifestEntry>)

  /** One line of the object index. */
  datatype Entry = Entry(id: string, pack: nat, size: nat, sha: string, path: Bytes, mtime: Time)

  /** One line of SHA256SUMS. */
  datatype SumLine = SumLine(hash: string, name: Name)

  /** `sumsPart` is the scratch file of a SHA256SUMS rewrite; `log` is the object index, byte for byte. */
  datatype Disk = Disk(packs: map<Name, File>, sums: seq<SumLine>, sumsPart: Option<seq<SumLine>>, log: Bytes)

  /** JSON and SHA-256: an entry's line and how it is read back, the pack name picked out of a line by
      text search, the hash of contents and the hash of a file. */
  datatype Codec = Codec(
    text: Entry -> Bytes,
    parse: Bytes -> Option<Entry>,
    packOf: Bytes -> Option<nat>,
    sha: Bytes -> string,
    digest: File -> string)

  /** A double holds every number up to this one. */
  const EXACT: int := 0x20_0000_0000_0000

  predicate Exact(n: int) { -EXACT <= n <= EXACT }

  /** The longest id the program keeps. */
  const ID_LENGTH := 31

  predicate Printable(s: string) { forall i :: 0 <= i < |s| ==> ' ' <= s[i] <= '~' }

  predicate WritableTime(t: Time) { Exact(t.sec) && Exact(t.nsec) }

  predicate WritableId(id: string) { Printable(id) && |id| <= ID_LENGTH }

  /** What the program writes into the index: printable text, paths without a NUL, and numbers a double holds. */
  predicate Writable(e: Entry) {
    && WritableId(e.id) && Printable(e.sha) && 0 !in e.path
    && e.pack <= EXACT && e.size <= EXACT && WritableTime(e.mtime)
  }

  predicate WritableObj(o: Obj) {
    WritableId(o.id) && 0 !in o.path && |o.data| <= EXACT && WritableTime(o.mtime)
  }

  ghost predicate AllWritable(es: seq<Entry>) { forall i :: 0 <= i < |es| ==> Writable(es[i]) }

  /** What is assumed of `c`: entries that can be written are read back, and hashes tell contents apart. */
  ghost predicate Sound(c: Codec) {
    && (forall e :: Writable(e) ==> LineSound(c, e))
    && Injective(c.sha)
    && (forall b :: c.sha(b) != "" && Printable(c.sha(b)))
  }

  ghost predicate LineSound(c: Codec, e: Entry) {
    var t := c.text(e);
    && c.parse(t) == Some(e) && c.packOf(t) == Some(e.pack)
    && t != [] && NEWLINE !in t && CARRIAGE_RETURN !in t
  }

  /** A piece of a JSON line is no JSON; needed only where a torn line is read. */
  ghost predicate TornUnreadable(c: Codec) {
    forall e, r: nat :: Writable(e) && 0 < r < |c.text(e)| ==> c.parse(c.text(e)[..r]) == None
  }

  const EMPTY := Disk(map[], [], None, [])

  // ---------------------------------------------------------------- the index as entries

  function Texts(c: Codec, es: seq<Entry>): (lines: seq<Bytes>)
    ensures |lines| == |es|
  {
    seq(|es|, i requires 0 <= i < |es| => c.text(es[i]))
  }

  /** The entries of the complete lines; a line that is no entry is passed over. */
  function ParseAll(c: Codec, lines: seq<Bytes>): (es: seq<Entry>) {
    if lines == [] then []
    else
      var rest := ParseAll(c, lines[..|lines| - 1]);
      match c.parse(lines[|lines| - 1])
      case Some(e) => rest + [e]
      case None => rest
  }

  function Entries(c: Codec, log: Bytes): seq<Entry> { ParseAll(c, Lines(log)) }

  lemma TextsPlain(c: Codec, es: seq<Entry>)
    requires Sound(c) && AllWritable(es)
    ensures Plain(Texts(c, es))
  {
    forall i | 0 <= i < |es| ensures NEWLINE !in Texts(c, es)[i] { assert LineSound(c, es[i]); }
  }

  lemma {:induction false} ParseTexts(c: Codec, es: seq<Entry>)
    requires Sound(c) && AllWritable(es)
    ensures ParseAll(c, Texts(c, es)) == es
  {
    if es != [] {
      var n := |es| - 1;
      ParseTexts(c, es[..n]);
      assert Texts(c, es)[..n] == Texts(c, es[..n]);
      assert LineSound(c, es[n]);
    }
  }

  lemma TextsConcat(c: Codec, es: seq<Entry>, fs: seq<Entry>)
    ensures Texts(c, es + fs) == Texts(c, es) + Texts(c, fs)
  {}

  lemma TextsTake(c: Codec, es: seq<Entry>, k: nat)
    requires k <= |es|
    ensures Texts(c, es)[..k] == Texts(c, es[..k])
  {}

  /** The log's complete lines are exactly the texts of `es`. */
  predicate LogHolds(c: Codec, log: Bytes, es: seq<Entry>) { Lines(log) == Texts(c, es) }

  lemma LogHoldsEntries(c: Codec, log: Bytes, es: seq<Entry>)
    requires Sound(c) && LogHolds(c, log, es) && AllWritable(es)
    ensures Entries(c, log) == es
  {
    ParseTexts(c, es);
  }

  predicate HasId(es: seq<Entry>, id: string) { exists i :: 0 <= i < |es| && es[i].id == id }

  lemma HasIdMeans(es: seq<Entry>, id: string)
    ensures HasId(es, id) <==> exists e :: e in es && e.id == id
  {
    if e :| e in es && e.id == id {
      var i :| 0 <= i < |es| && es[i] == e;
      assert es[i].id == id;
    }
  }

  // ---------------------------------------------------------------- safety

  predicate Holds(c: Codec, m: Member, e: Entry) {
    m.path == e.path && |m.data| == e.size && c.sha(m.data) == e.sha
  }

  ghost predicate DistinctMembers(ms: seq<Member>) {
    forall i, j :: 0 <= i < j < |ms| ==> ms[i].path != ms[j].path
  }

  /** The manifest describes the archive, member by member. */
  ghost predicate Describes(c: Codec, es: seq<ManifestEntry>, ms: seq<Member>) {
    && |es| == |ms|
    && forall i :: 0 <= i < |ms| ==>
         es[i].path == ms[i].path && es[i].size == |ms[i].data| && es[i].sha == c.sha(ms[i].data)
  }

  /** Archive and manifest of pack `n` are in place, agree, and are listed with their current hashes. */
  ghost predicate PackInPlace(c: Codec, d: Disk, n: nat) {
    && n < PACK_LIMIT
    && Archive(n) in d.packs && Manifest(n) in d.packs
    && d.packs[Archive(n)].ArchiveFile? && d.packs[Manifest(n)].ManifestFile?
    && DistinctMembers(d.packs[Archive(n)].members)
    && Describes(c, d.packs[Manifest(n)].entries, d.packs[Archive(n)].members)
    && SumLine(c.digest(d.packs[Archive(n)]), Archive(n)) in d.sums
    && SumLine(c.digest(d.packs[Manifest(n)]), Manifest(n)) in d.sums
  }

  /** The manifest has the entry's object: its id, path, size and hash. */
  ghost predicate InManifest(es: seq<ManifestEntry>, e: Entry) {
    exists r :: r in es && r.id == e.id && r.path == e.path && r.size == e.size && r.sha == e.sha
  }

  ghost predicate EntrySafe(c: Codec, d: Disk, e: Entry) {
    && Writable(e) && PackInPlace(c, d, e.pack)
    && InManifest(d.packs[Manifest(e.pack)].entries, e)
    && exists m :: m in d.packs[Archive(e.pack)].members && Holds(c, m, e)
  }

  ghost predicate DistinctEntryIds(es: seq<Entry>) {
    forall i, j :: 0 <= i < j < |es| ==> es[i].id != es[j].id
  }

  ghost predicate DistinctPackPaths(es: seq<Entry>) {
    forall i, j :: 0 <= i < j < |es| && es[i].pack == es[j].pack ==> es[i].path != es[j].path
  }

  /** What a reader relies on: each complete index line is an entry whose pack is in place, holds the object and has
      it in its manifest, no object has two lines, and no pack holds two objects by one path. */
  ghost predicate IndexSafe(c: Codec, d: Disk) {
    var es := Entries(c, d.log);
    && LogHolds(c, d.log, es)
    && DistinctEntryIds(es) && DistinctPackPaths(es)
    && (forall e :: e in es ==> EntrySafe(c, d, e))
  }

  /** What every reachable disk satisfies: its index is safe, and no archive is numbered beyond recognition. */
  ghost predicate Safe(c: Codec, d: Disk) {
    IndexSafe(c, d) && forall n: nat :: Archive(n) in d.packs ==> n < PACK_LIMIT
  }

  lemma SafeWritable(c: Codec, d: Disk)
    requires IndexSafe(c, d)
    ensures AllWritable(Entries(c, d.log))
  {
    var es := Entries(c, d.log);
    forall i | 0 <= i < |es| ensures Writable(es[i]) { assert EntrySafe(c, d, es[i]); }
  }

  /** The file `name` of `d`, if there, is there in `t` too, unchanged. */
  predicate FileKept(d: Disk, t: Disk, name: Name) {
    name in d.packs ==> name in t.packs && t.packs[name] == d.packs[name]
  }

  /** No entry of `d` is lost in `t`, and neither file of its pack is deleted or overwritten. */
  ghost predicate Preserved(c: Codec, d: Disk, t: Disk) {
    && Entries(c, d.log) <= Entries(c, t.log)
    && forall e :: e in Entries(c, d.log) ==> FileKept(d, t, Archive(e.pack)) && FileKept(d, t, Manifest(e.pack))
  }

  /** Every checksum line of an existing file is still there. */
  ghost predicate SumsKept(d: Disk, t: Disk) {
    forall l :: l in d.sums && l.name in t.packs ==> l in t.sums
  }

  /** The disk as a reader sees it that takes a torn last index line for a whole one. */
  function Closed(d: Disk): Disk { d.(log := Whole(d.log)) }

  lemma PackFrame(c: Codec, d: Disk, t: Disk, n: nat)
    requires PackInPlace(c, d, n)
    requires FileKept(d, t, Archive(n)) && FileKept(d, t, Manifest(n)) && SumsKept(d, t)
    ensures PackInPlace(c, t, n)
  {}

  /** Safety carries over while the lines stay and the entries' files and checksum lines do. */
  lemma SafeFrame(c: Codec, d: Disk, t: Disk)
    requires Safe(c, d) && Lines(t.log) == Lines(d.log) && SumsKept(d, t)
    requires forall e :: e in Entries(c, d.log) ==> FileKept(d, t, Archive(e.pack)) && FileKept(d, t, Manifest(e.pack))
    requires forall n: nat :: Archive(n) in t.packs ==> n < PACK_LIMIT
    ensures Safe(c, t) && Preserved(c, d, t)
  {
    forall e | e in Entries(c, t.log) ensures EntrySafe(c, t, e) {
      assert EntrySafe(c, d, e);
      PackFrame(c, d, t, e.pack);
    }
  }

  lemma PreservedTransitive(c: Codec, d: Disk, t: Disk, u: Disk)
    requires Preserved(c, d, t) && Preserved(c, t, u)
    ensures Preserved(c, d, u)
  {
    forall e | e in Entries(c, d.log) ensures e in Entries(c, t.log) {}
  }
}
