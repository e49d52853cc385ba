/** Index lines as JSON records: the assumptions about lines follow from those about JSON, and from how paths are
    stored. */
module JsonLines {
  import opened Types
  import opened OnDisk
  import opened Utf8
  import opened Base64
  import opened PathField

  /** What one JSON line holds: an object of the index, a line of a snapshot, or a snapshot's header. */
  datatype Record =
    | IndexRecord(id: string, pack: nat, size: nat, sha: string, path: Field, mtime: Time)
    | FileRecord(id: string, path: Field, size: nat, mtime: Time)
    | DirRecord(path: Field)
    | LinkRecord(path: Field, target: Field)
    | HeaderRecord(root: Field)

  /** The JSON library, the text search for a pack's name, and the hashes. */
  datatype Json = Json(
    write: Record -> Bytes,
    read: Bytes -> Option<Record>,
    packOf: Bytes -> Option<nat>,
    sha: Bytes -> string,
    digest: File -> string)

  /** A C string that JSON can carry: UTF-8 text, or base64. */
  ghost predicate FieldOk(f: Field) {
    match f
    case Plain(b) => IsUtf8(b) && 0 !in b
    case Coded(text) => Printable(text)
  }

  /** Printable text, strings JSON can carry, numbers a double holds. */
  ghost predicate RecordOk(r: Record) {
    match r
    case IndexRecord(id, pack, size, sha, path, mtime) =>
      WritableId(id) && pack <= EXACT && size <= EXACT && Printable(sha) && FieldOk(path) && WritableTime(mtime)
    case FileRecord(id, path, size, mtime) => WritableId(id) && FieldOk(path) && size <= EXACT && WritableTime(mtime)
    case DirRecord(path) => FieldOk(path)
    case LinkRecord(path, target) => FieldOk(path) && FieldOk(target)
    case HeaderRecord(root) => FieldOk(root)
  }

  /** Such a record is one line, and is read back from it. */
  ghost predicate WritesLine(j: Json, r: Record) {
    var t := j.write(r);
    && j.read(t) == Some(r) && t != [] && NEWLINE !in t && CARRIAGE_RETURN !in t
    && (r.IndexRecord? ==> j.packOf(t) == Some(r.pack))
  }

  ghost predicate JsonSound(j: Json) {
    && (forall r :: RecordOk(r) ==> WritesLine(j, r))
    && Injective(j.sha)
    && (forall b :: j.sha(b) != "" && Printable(j.sha(b)))
  }

  /** A piece of a JSON line is no JSON. */
  ghost predicate JsonTorn(j: Json) {
    forall r, k: nat :: RecordOk(r) && 0 < k < |j.write(r)| ==> j.read(j.write(r)[..k]) == None
  }

  // ---------------------------------------------------------------- index lines

  ghost function RecordOf(e: Entry): Record { IndexRecord(e.id, e.pack, e.size, e.sha, Stored(e.path), e.mtime) }

  function EntryOf(r: Record): Option<Entry> {
    match r
    case IndexRecord(id, pack, size, sha, path, mtime) =>
      (match ReadBack(IndexDecoder, path)
       case Some(p) => Some(Entry(id, pack, size, sha, p, mtime))
       case None => None)
    case _ => None
  }

  function ReadEntry(j: Json, line: Bytes): Option<Entry> {
    match j.read(line)
    case Some(r) => EntryOf(r)
    case None => None
  }

  ghost function IndexCodec(j: Json): Codec {
    Codec(e => j.write(RecordOf(e)), line => ReadEntry(j, line), j.packOf, j.sha, j.digest)
  }

  lemma {:induction false} EncodedPrintable(s: Bytes)
    ensures Printable(Encoded(s))
  {
    if |s| > 2 { EncodedPrintable(s[3..]); }
  }

  /** A path without a NUL is stored as JSON can carry it, and comes back from whichever reader. */
  lemma StoredOk(dec: Decoder, path: Bytes)
    requires 0 !in path
    ensures FieldOk(Stored(path)) && ReadBack(dec, Stored(path)) == Some(path)
  {
    RoundTripsExactly(dec, path);
    EncodedPrintable(path);
    hide IsUtf8, Encoded, Printable;
  }

  lemma LineIsSound(j: Json, e: Entry)
    requires JsonSound(j) && Writable(e)
    ensures LineSound(IndexCodec(j), e)
  {
    StoredOk(IndexDecoder, e.path);
    hide Stored, ReadBack, FieldOk, Printable;
    assert RecordOk(RecordOf(e));
    assert WritesLine(j, RecordOf(e));
  }

  /** All that is assumed of index lines, from a JSON library that reads back what it wrote. */
  lemma IndexCodecSound(j: Json)
    requires JsonSound(j)
    ensures Sound(IndexCodec(j))
  {
    hide LineSound;
    forall e | Writable(e) ensures LineSound(IndexCodec(j), e) { LineIsSound(j, e); }
  }

  lemma IndexCodecTorn(j: Json)
    requires JsonTorn(j)
    ensures TornUnreadable(IndexCodec(j))
  {
    var c := IndexCodec(j);
    forall e, k: nat | Writable(e) && 0 < k < |c.text(e)| ensures c.parse(c.text(e)[..k]) == None {
      StoredOk(IndexDecoder, e.path);
      assert RecordOk(RecordOf(e)) by { hide Stored, ReadBack, FieldOk, Printable; }
    }
  }
}
