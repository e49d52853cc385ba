/** A snapshot's file: a header line and a line for each file, directory and symbolic link, written by the scan and read
    back by packing and restoring (`tp_snapshot_write_*`, `tp_manifest_read_file`). */
module SnapshotFile {
  import opened Types
  import opened LineLog
  import opened OnDisk
  import opened ObjectIndex
  import opened Base64
  import opened PathField
  import opened JsonLines
  import opened Scan
  import opened Restore
  import opened Identity
  import World

  datatype Item = FileItem(file: SnapFile) | DirItem(path: Bytes) | LinkItem(path: Bytes, target: Bytes)

  ghost predicate ItemOk(item: Item) {
    match item
    case FileItem(f) => WritableId(f.id) && 0 !in f.path && f.size <= EXACT && WritableTime(f.mtime)
    case DirItem(path) => 0 !in path
    case LinkItem(path, target) => 0 !in path && 0 !in target
  }

  ghost function ItemRecord(item: Item): Record {
    match item
    case FileItem(f) => FileRecord(f.id, Stored(f.path), f.size, f.mtime)
    case DirItem(path) => DirRecord(Stored(path))
    case LinkItem(path, target) => LinkRecord(Stored(path), Stored(target))
  }

  /** What a line is read as: an item, nothing for a header, or failure. */
  datatype Parsed = Header | Read(item: Item) | Bad

  function ParseLine(j: Json, line: Bytes): Parsed {
    match j.read(line)
    case None => Bad
    case Some(r) =>
      match r
      case HeaderRecord(_) => Header
      case FileRecord(id, path, size, mtime) =>
        (match ReadBack(ManifestDecoder, path)
         case Some(p) => Read(FileItem(SnapFile(p, id, size, mtime)))
         case None => Bad)
      case DirRecord(path) =>
        (match ReadBack(ManifestDecoder, path)
         case Some(p) => Read(DirItem(p))
         case None => Bad)
      case LinkRecord(path, target) =>
        (match (ReadBack(ManifestDecoder, path), ReadBack(ManifestDecoder, target))
         case (Some(p), Some(t)) => Read(LinkItem(p, t))
         case _ => Bad)
      case IndexRecord(_, _, _, _, _, _) => Bad
  }

  /** The items of all the lines, empty ones apart, if every one of them can be read. */
  function Items(j: Json, lines: seq<Bytes>): Option<seq<Item>> {
    if lines == [] then Some([])
    else
      match Items(j, lines[..|lines| - 1])
      case None => None
      case Some(items) =>
        var line := Stripped(lines[|lines| - 1]);
        if line == [] then Some(items)
        else
          match ParseLine(j, line)
          case Bad => None
          case Header => Some(items)
          case Read(item) => Some(items + [item])
  }

  /** `tp_manifest_read_file`, each line handed on as it is read; -1 at the first that cannot be. */
  method ReadSnapshot(j: Json, log: Bytes) returns (rc: int, items: seq<Item>)
    ensures rc == 0 || rc == -1
    ensures rc == 0 <==> Items(j, ReadLines(log)).Some?
    ensures rc == 0 ==> items == Items(j, ReadLines(log)).value
  {
    hide ParseLine;
    var lines := ReadLines(log);
    items := [];
    for i := 0 to |lines|
      invariant Items(j, lines[..i]) == Some(items)
    {
      assert lines[..i + 1][..i] == lines[..i];
      var line := Stripped(lines[i]);
      if line != [] {
        match ParseLine(j, line) {
          case Bad =>
            ItemsNone(j, lines, i + 1);
            return -1, items;
          case Header =>
          case Read(item) => items := items + [item];
        }
      }
    }
    assert lines[..|lines|] == lines;
    rc := 0;
  }

  lemma {:induction false} ItemsNone(j: Json, lines: seq<Bytes>, i: nat)
    requires i <= |lines| && Items(j, lines[..i]) == None
    ensures Items(j, lines) == None
  {
    if i == |lines| {
      assert lines[..i] == lines;
    } else {
      assert lines[..|lines| - 1][..i] == lines[..i];
      ItemsNone(j, lines[..|lines| - 1], i);
    }
  }

  // ---------------------------------------------------------------- what was written is read

  ghost function ItemLines(j: Json, items: seq<Item>): (lines: seq<Bytes>)
    ensures |lines| == |items|
  {
    seq(|items|, i requires 0 <= i < |items| => j.write(ItemRecord(items[i])))
  }

  ghost function HeaderLine(j: Json, root: Bytes): Bytes { j.write(HeaderRecord(Stored(root))) }

  /** The file the scan of `root` writes. */
  ghost function Written(j: Json, root: Bytes, items: seq<Item>): Bytes {
    Text([HeaderLine(j, root)] + ItemLines(j, items))
  }

  ghost predicate LineReads(j: Json, line: Bytes, p: Parsed) {
    NEWLINE !in line && Stripped(line) == line && line != [] && ParseLine(j, line) == p
  }

  lemma NothingStripped(line: Bytes)
    requires line != [] && NEWLINE !in line && CARRIAGE_RETURN !in line
    ensures Stripped(line) == line
  {
    assert line[|line| - 1] in line;
  }

  lemma ItemReads(j: Json, item: Item)
    requires JsonSound(j) && ItemOk(item)
    ensures LineReads(j, j.write(ItemRecord(item)), Read(item))
  {
    StoredPaths(item);
    hide Stored, ReadBack, FieldOk, Stripped, Printable;
    assert WritesLine(j, ItemRecord(item));
    NothingStripped(j.write(ItemRecord(item)));
  }

  lemma StoredPaths(item: Item)
    requires ItemOk(item)
    ensures RecordOk(ItemRecord(item))
    ensures var r := ItemRecord(item);
            match item
            case FileItem(f) => ReadBack(ManifestDecoder, r.path) == Some(f.path)
            case DirItem(path) => ReadBack(ManifestDecoder, r.path) == Some(path)
            case LinkItem(path, target) =>
              ReadBack(ManifestDecoder, r.path) == Some(path) && ReadBack(ManifestDecoder, r.target) == Some(target)
  {
    hide Stored, ReadBack, FieldOk, Printable;
    match item {
      case FileItem(f) => StoredOk(ManifestDecoder, f.path);
      case DirItem(path) => StoredOk(ManifestDecoder, path);
      case LinkItem(path, target) =>
        StoredOk(ManifestDecoder, path);
        StoredOk(ManifestDecoder, target);
    }
  }

  lemma HeaderReads(j: Json, root: Bytes)
    requires JsonSound(j) && 0 !in root
    ensures LineReads(j, HeaderLine(j, root), Header)
  {
    StoredOk(ManifestDecoder, root);
    hide Stored, ReadBack, FieldOk, Stripped;
    assert WritesLine(j, HeaderRecord(Stored(root)));
    NothingStripped(HeaderLine(j, root));
  }

  ghost predicate AllOk(items: seq<Item>) { forall i :: 0 <= i < |items| ==> ItemOk(items[i]) }

  /** One more line that reads as an item, or as the header, at the end. */
  lemma ItemsMore(j: Json, lines: seq<Bytes>, line: Bytes, items: seq<Item>, p: Parsed)
    requires Items(j, lines) == Some(items) && LineReads(j, line, p) && !p.Bad?
    ensures Items(j, lines + [line]) == Some(if p.Header? then items else items + [p.item])
  {
    hide ParseLine, Stripped;
    assert (lines + [line])[..|lines|] == lines;
  }

  lemma LinesOfLast(j: Json, header: Bytes, items: seq<Item>)
    requires items != []
    ensures var n := |items| - 1;
            && [header] + ItemLines(j, items) == ([header] + ItemLines(j, items[..n])) + [j.write(ItemRecord(items[n]))]
            && items == items[..n] + [items[n]]
  {
    hide ItemRecord;
    assert ItemLines(j, items) == ItemLines(j, items[..|items| - 1]) + [j.write(ItemRecord(items[|items| - 1]))];
  }

  lemma {:induction false} ItemsOfLines(j: Json, header: Bytes, items: seq<Item>)
    requires JsonSound(j) && LineReads(j, header, Header) && AllOk(items)
    ensures Items(j, [header] + ItemLines(j, items)) == Some(items)
  {
    hide JsonSound, LineReads, ItemOk, ItemLines, ItemRecord;
    if items == [] {
      ItemsMore(j, [], header, [], Header);
      assert [] + [header] == [header] && [header] + ItemLines(j, items) == [header];
    } else {
      var n := |items| - 1;
      ItemsOfLines(j, header, items[..n]);
      ItemReads(j, items[n]);
      LinesOfLast(j, header, items);
      ItemsMore(j, [header] + ItemLines(j, items[..n]), j.write(ItemRecord(items[n])), items[..n], Read(items[n]));
    }
  }

  lemma WrittenPlain(j: Json, header: Bytes, items: seq<Item>)
    requires JsonSound(j) && LineReads(j, header, Header) && AllOk(items)
    ensures LineLog.Plain([header] + ItemLines(j, items))
  {
    hide JsonSound, ItemOk, ItemRecord, ParseLine, Stripped;
    forall i | 0 <= i < |items| ensures NEWLINE !in ItemLines(j, items)[i] { ItemReads(j, items[i]); }
  }

  /** A snapshot read back holds exactly the items written. */
  lemma SnapshotReadsBack(j: Json, root: Bytes, items: seq<Item>)
    requires JsonSound(j) && 0 !in root && AllOk(items)
    ensures Items(j, ReadLines(Written(j, root, items))) == Some(items)
  {
    hide Items, AllOk, JsonSound, ItemLines, HeaderLine, Lines, ReadLines, Text, LineReads, LineLog.Plain;
    var header := HeaderLine(j, root);
    var lines := [header] + ItemLines(j, items);
    HeaderReads(j, root);
    ItemsOfLines(j, header, items);
    WrittenPlain(j, header, items);
    NoLines();
    LinesOfText([], lines);
    assert [] + Text(lines) == Text(lines) && [] + lines == lines;
    ReadLinesClean(Text(lines));
  }

  lemma NoLines()
    ensures Lines([]) == []
  {}

  // ---------------------------------------------------------------- the lines the rest of the program works on

  /** The file lines, in order, and the paths of the other lines. */
  function Files(items: seq<Item>): seq<SnapFile> {
    if items == [] then []
    else
      var rest, last := Files(items[..|items| - 1]), items[|items| - 1];
      if last.FileItem? then rest + [last.file] else rest
  }

  function OtherPaths(items: seq<Item>): Others {
    if items == [] then Others([], [])
    else
      var rest := OtherPaths(items[..|items| - 1]);
      match items[|items| - 1]
      case FileItem(_) => rest
      case DirItem(path) => rest.(dirs := rest.dirs + [path])
      case LinkItem(path, _) => rest.(links := rest.links + [path])
  }

  ghost predicate HasLinkTo(items: seq<Item>, path: Bytes) { exists i :: 0 <= i < |items| && IsLink(items[i], path) }

  predicate IsLink(item: Item, path: Bytes) { item.LinkItem? && item.path == path }

  /** Taken apart, the lines are all there and nothing else is: files, directories, symbolic links. */
  lemma {:induction false} TakenApart(items: seq<Item>, f: SnapFile, path: Bytes)
    ensures f in Files(items) <==> FileItem(f) in items
    ensures path in OtherPaths(items).dirs <==> DirItem(path) in items
    ensures path in OtherPaths(items).links <==> HasLinkTo(items, path)
  {
    if items != [] {
      var n := |items| - 1;
      TakenApart(items[..n], f, path);
      assert items == items[..n] + [items[n]];
      assert HasLinkTo(items, path) <==> HasLinkTo(items[..n], path) || IsLink(items[n], path) by {
        if i :| 0 <= i < |items[..n]| && IsLink(items[..n][i], path) { assert IsLink(items[i], path); }
      }
    }
  }

  /** Whatever a scan of such a tree hands over can be written, and so is read back. */
  lemma ScannedItemsOk(c: Codec, es: seq<Entry>, hashed: FileStat -> bool, tree: seq<FileStat>, snap: seq<SnapFile>)
    requires Scanned(c, es, hashed, tree, snap) && IdsWritable(es)
    requires forall i :: 0 <= i < |tree| ==> World.WritableFile(tree[i])
    ensures forall i :: 0 <= i < |snap| ==> ItemOk(FileItem(snap[i]))
  {
    hide IdChosen;
    forall i | 0 <= i < |snap| ensures ItemOk(FileItem(snap[i])) {
      ScannedIdWritable(c, es, hashed, tree, snap, i);
      assert LineFor(snap[i], tree[i]);
    }
  }
}
