/** The assumptions about serialised forms can be met: a stand-in for JSON that satisfies them. */
module SoundCodec {
  import opened Types
  import opened OnDisk
  import opened PathField
  import opened JsonLines

  /** A number as so many ones and a zero. */
  function Unary(n: nat): Bytes { if n == 0 then [0] else [1] + Unary(n - 1) }

  function UnaryAll(ns: seq<nat>): Bytes { if ns == [] then [] else Unary(ns[0]) + UnaryAll(ns[1..]) }

  lemma {:induction false} UnaryApart(m: nat, n: nat, x: Bytes, y: Bytes)
    requires Unary(m) + x == Unary(n) + y
    ensures m == n && x == y
  {
    var a, b := Unary(m) + x, Unary(n) + y;
    assert a[0] == b[0];
    if m > 0 && n > 0 {
      assert a[1..] == Unary(m - 1) + x && b[1..] == Unary(n - 1) + y;
      UnaryApart(m - 1, n - 1, x, y);
    } else {
      assert m == 0 && n == 0;
      assert a[1..] == x && b[1..] == y;
    }
  }

  lemma {:induction false} UnaryAllApart(a: seq<nat>, b: seq<nat>)
    requires UnaryAll(a) == UnaryAll(b)
    ensures a == b
  {
    if a != [] && b != [] {
      UnaryApart(a[0], b[0], UnaryAll(a[1..]), UnaryAll(b[1..]));
      UnaryAllApart(a[1..], b[1..]);
    }
  }

  lemma {:induction false} UnaryBits(n: nat)
    ensures Unary(n) != [] && forall b :: b in Unary(n) ==> b <= 1
  {
    if n > 0 { UnaryBits(n - 1); }
  }

  lemma {:induction false} UnaryAllBits(ns: seq<nat>)
    ensures (ns != [] ==> UnaryAll(ns) != []) && forall b :: b in UnaryAll(ns) ==> b <= 1
  {
    if ns != [] {
      UnaryBits(ns[0]);
      UnaryAllBits(ns[1..]);
    }
  }

  function Chars(s: string): (ns: seq<nat>)
    ensures |ns| == |s|
  {
    seq(|s|, i requires 0 <= i < |s| => s[i] as int)
  }

  function Signed(x: int): nat { if x >= 0 then 2 * x else -2 * x - 1 }

  /** Each part behind its length. */
  function Part(ns: seq<nat>): seq<nat> { [|ns|] + ns }

  function FieldNumbers(f: Field): seq<nat> {
    match f
    case Plain(b) => [0] + b
    case Coded(text) => [1] + Chars(text)
  }

  function Fixed(r: Record): seq<nat> {
    match r
    case IndexRecord(_, pack, size, _, _, mtime) => [pack, size, Signed(mtime.sec), Signed(mtime.nsec)]
    case FileRecord(_, _, size, mtime) => [size, Signed(mtime.sec), Signed(mtime.nsec)]
    case DirRecord(_) => []
    case LinkRecord(_, _) => []
    case HeaderRecord(_) => []
  }

  /** Up to three parts of their own length, and then so many numbers. */
  function Front(r: Record): (nat, seq<nat>, seq<nat>, seq<nat>) {
    match r
    case IndexRecord(id, _, _, sha, path, _) => (0, Chars(id), Chars(sha), FieldNumbers(path))
    case FileRecord(id, path, _, _) => (1, Chars(id), [], FieldNumbers(path))
    case DirRecord(path) => (2, [], [], FieldNumbers(path))
    case LinkRecord(path, target) => (3, [], FieldNumbers(path), FieldNumbers(target))
    case HeaderRecord(root) => (4, [], [], FieldNumbers(root))
  }

  function Numbers(r: Record): seq<nat> {
    var f := Front(r);
    [f.0] + (Part(f.1) + (Part(f.2) + (Part(f.3) + Fixed(r))))
  }

  lemma PartApart(a: seq<nat>, b: seq<nat>, x: seq<nat>, y: seq<nat>)
    requires Part(a) + x == Part(b) + y
    ensures a == b && x == y
  {
    var s, t := Part(a) + x, Part(b) + y;
    assert s[0] == |a| && t[0] == |b|;
    assert s[1..|a| + 1] == a && t[1..|b| + 1] == b;
    assert s[|a| + 1..] == x && t[|b| + 1..] == y;
  }

  lemma CharsApart(a: string, b: string)
    requires Chars(a) == Chars(b)
    ensures a == b
  {
    forall i | 0 <= i < |a| ensures a[i] == b[i] { assert Chars(a)[i] == Chars(b)[i]; }
  }

  lemma FieldsApart(a: Field, b: Field)
    requires FieldNumbers(a) == FieldNumbers(b)
    ensures a == b
  {
    var s, t := FieldNumbers(a), FieldNumbers(b);
    assert s[0] == t[0];
    match (a, b) {
      case (Plain(x), Plain(y)) => assert s[1..] == x && t[1..] == y;
      case (Coded(x), Coded(y)) =>
        assert s[1..] == Chars(x) && t[1..] == Chars(y);
        CharsApart(x, y);
      case _ =>
    }
  }

  /** What is the same in front leaves the same behind. */
  lemma FrontApart(f: (nat, seq<nat>, seq<nat>, seq<nat>), g: (nat, seq<nat>, seq<nat>, seq<nat>),
                   x: seq<nat>, y: seq<nat>)
    requires [f.0] + (Part(f.1) + (Part(f.2) + (Part(f.3) + x))) == [g.0] + (Part(g.1) + (Part(g.2) + (Part(g.3) + y)))
    ensures f == g && x == y
  {
    var s := [f.0] + (Part(f.1) + (Part(f.2) + (Part(f.3) + x)));
    var t := [g.0] + (Part(g.1) + (Part(g.2) + (Part(g.3) + y)));
    assert s[0] == f.0 && t[0] == g.0;
    assert s[1..] == Part(f.1) + (Part(f.2) + (Part(f.3) + x)) && t[1..] == Part(g.1) + (Part(g.2) + (Part(g.3) + y));
    hide Part;
    PartApart(f.1, g.1, Part(f.2) + (Part(f.3) + x), Part(g.2) + (Part(g.3) + y));
    PartApart(f.2, g.2, Part(f.3) + x, Part(g.3) + y);
    PartApart(f.3, g.3, x, y);
  }

  /** The numbers at the end are as many as the record's kind says, and settle the rest of it. */
  lemma FixedApart(a: Record, b: Record)
    requires Front(a) == Front(b)
    ensures |Fixed(a)| == |Fixed(b)|
    ensures Fixed(a) == Fixed(b) ==> a == b
  {
    hide Chars, FieldNumbers;
    if Fixed(a) == Fixed(b) {
      var x, y := Fixed(a), Fixed(b);
      match (a, b) {
        case (IndexRecord(id, _, _, sha, path, _), IndexRecord(id2, _, _, sha2, path2, _)) =>
          CharsApart(id, id2);
          CharsApart(sha, sha2);
          FieldsApart(path, path2);
          assert x[0] == y[0] && x[1] == y[1] && x[2] == y[2] && x[3] == y[3];
        case (FileRecord(id, path, _, _), FileRecord(id2, path2, _, _)) =>
          CharsApart(id, id2);
          FieldsApart(path, path2);
          assert x[0] == y[0] && x[1] == y[1] && x[2] == y[2];
        case (DirRecord(path), DirRecord(path2)) => FieldsApart(path, path2);
        case (LinkRecord(path, target), LinkRecord(path2, target2)) =>
          FieldsApart(path, path2);
          FieldsApart(target, target2);
        case (HeaderRecord(root), HeaderRecord(root2)) => FieldsApart(root, root2);
        case _ =>
      }
    }
  }

  lemma NumbersApart(a: Record, b: Record)
    requires Numbers(a) == Numbers(b)
    ensures a == b
  {
    hide Part, Front, Fixed;
    FrontApart(Front(a), Front(b), Fixed(a), Fixed(b));
    FixedApart(a, b);
  }

  function Line(r: Record): Bytes { UnaryAll(Numbers(r)) }

  ghost function Parsed(line: Bytes): Option<Record> {
    if r: Record :| Line(r) == line then Some(r) else None
  }

  lemma ParsedLine(r: Record)
    ensures Parsed(Line(r)) == Some(r)
  {
    hide Numbers, UnaryAll;
    forall x: Record | Line(x) == Line(r) ensures x == r {
      UnaryAllApart(Numbers(x), Numbers(r));
      NumbersApart(x, r);
    }
  }

  /** A hash mark, and then two letters for each byte. */
  function Hash(data: Bytes): (s: string)
    ensures s != "" && Printable(s)
  {
    if data == [] then "#"
    else Hash(data[1..]) + [('A' as int + data[0] / 16) as char, ('A' as int + data[0] % 16) as char]
  }

  lemma {:induction false} HashApart(a: Bytes, b: Bytes)
    requires Hash(a) == Hash(b)
    ensures a == b
  {
    HashLength(a);
    HashLength(b);
    if a != [] {
      var s, t, n := Hash(a), Hash(b), 2 * |a| - 1;
      assert s[..n] == Hash(a[1..]) && t[..n] == Hash(b[1..]);
      assert s[n] == t[n] && s[n + 1] == t[n + 1];
      HashApart(a[1..], b[1..]);
    }
  }

  lemma {:induction false} HashLength(a: Bytes)
    ensures |Hash(a)| == 2 * |a| + 1
  {
    if a != [] { HashLength(a[1..]); }
  }

  ghost function PackOf(line: Bytes): Option<nat> {
    match Parsed(line)
    case None => None
    case Some(r) => if r.IndexRecord? then Some(r.pack) else None
  }

  ghost function Example(): Json {
    Json(r => Line(r), line => Parsed(line), line => PackOf(line), data => Hash(data), _ => "")
  }

  /** No theorem about a sound codec is empty: there is one. */
  lemma ExampleSound()
    ensures JsonSound(Example()) && Sound(IndexCodec(Example()))
  {
    var j := Example();
    forall r ensures WritesLine(j, r) { ExampleLine(r); }
    hide Line, Parsed, Hash, Printable, WritesLine;
    forall a: Bytes, b: Bytes ensures j.sha(a) == j.sha(b) ==> a == b {
      if j.sha(a) == j.sha(b) { HashApart(a, b); }
    }
    IndexCodecSound(j);
  }

  lemma ExampleLine(r: Record)
    ensures WritesLine(Example(), r)
  {
    ParsedLine(r);
    UnaryAllBits(Numbers(r));
    hide Parsed, Front, Fixed;
  }

  // ---------------------------------------------------------------- no line is the beginning of another

  lemma {:induction false} UnaryAllPrefix(a: seq<nat>, b: seq<nat>, z: Bytes)
    requires UnaryAll(a) + z == UnaryAll(b)
    ensures a <= b && (a == b ==> z == [])
  {
    if a != [] {
      UnaryBits(a[0]);
      UnaryApart(a[0], b[0], UnaryAll(a[1..]) + z, UnaryAll(b[1..])) by {
        assert UnaryAll(a) + z == Unary(a[0]) + (UnaryAll(a[1..]) + z);
      }
      UnaryAllPrefix(a[1..], b[1..], z);
    } else if b != [] {
      UnaryBits(b[0]);
    }
  }

  lemma Behind<T>(a: seq<T>, b: seq<T>, c: seq<T>, d: seq<T>, x: seq<T>, w: seq<T>)
    ensures (a + (b + (c + (d + x)))) + w == a + (b + (c + (d + (x + w))))
  {
    assert (d + x) + w == d + (x + w);
    assert (c + (d + x)) + w == c + ((d + x) + w);
    assert (b + (c + (d + x))) + w == b + ((c + (d + x)) + w);
    assert (a + (b + (c + (d + x)))) + w == a + ((b + (c + (d + x))) + w);
  }

  lemma NumbersPrefix(a: Record, b: Record)
    requires Numbers(a) <= Numbers(b)
    ensures Numbers(a) == Numbers(b)
  {
    hide Part, Front, Fixed;
    var w := Numbers(b)[|Numbers(a)|..];
    var f := Front(a);
    PrefixRest(Numbers(a), Numbers(b));
    Behind([f.0], Part(f.1), Part(f.2), Part(f.3), Fixed(a), w);
    FrontApart(f, Front(b), Fixed(a) + w, Fixed(b));
    FixedApart(a, b);
  }

  lemma PrefixRest<T>(a: seq<T>, b: seq<T>)
    requires a <= b
    ensures a + b[|a|..] == b
  {}

  lemma TornLine(r: Record, k: nat)
    requires 0 < k < |Line(r)|
    ensures Parsed(Line(r)[..k]) == None
  {
    var torn := Line(r)[..k];
    hide Numbers, UnaryAll;
    forall x: Record ensures Line(x) != torn {
      if Line(x) == torn {
        assert UnaryAll(Numbers(x)) + Line(r)[k..] == UnaryAll(Numbers(r));
        UnaryAllPrefix(Numbers(x), Numbers(r), Line(r)[k..]);
        NumbersPrefix(x, r);
      }
    }
  }

  /** And the further assumption about torn lines can be met with it. */
  lemma ExampleTornUnreadable()
    ensures JsonTorn(Example()) && TornUnreadable(IndexCodec(Example()))
  {
    var j := Example();
    forall r, k: nat | 0 < k < |j.write(r)| ensures j.read(j.write(r)[..k]) == None { TornLine(r, k); }
    IndexCodecTorn(j);
  }
}
