/** Base64 (section 4 of RFC 4648): the one encoder, the three decoders, and the form a path is stored in. */
module Base64 {
  import opened Types

  function Digit(v: nat): (c: char)
    requires v < 64
    ensures c != '=' && Value(c) == v
  {
    if v < 26 then 'A' + v as char
    else if v < 52 then 'a' + (v - 26) as char
    else if v < 62 then '0' + (v - 52) as char
    else if v == 62 then '+'
    else '/'
  }

  /** The value of a digit, or -1. */
  function Value(c: char): (v: int)
    ensures -1 <= v < 64
  {
    if 'A' <= c <= 'Z' then c as int - 'A' as int
    else if 'a' <= c <= 'z' then c as int - 'a' as int + 26
    else if '0' <= c <= '9' then c as int - '0' as int + 52
    else if c == '+' then 62
    else if c == '/' then 63
    else -1
  }

  /** The alphabet, in the order of table 1 of RFC 4648. */
  const UPPER := "ABCDEFGHIJKLMNOPQRSTUVWXYZ"
  const LOWER := "abcdefghijklmnopqrstuvwxyz"
  const TENS := "0123456789"

  const ALPHABET := UPPER + LOWER + TENS + "+/"

  /** Each digit stands for its place in the alphabet. */
  lemma DigitTable(v: nat)
    requires v < 64
    ensures |ALPHABET| == 64 && Digit(v) == ALPHABET[v]
  {
    InAlphabet(v);
    hide Value;
    if v < 26 { UpperAt(v); } else if v < 52 { LowerAt(v - 26); } else if v < 62 { TensAt(v - 52); }
  }

  lemma InAlphabet(v: nat)
    requires v < 64
    ensures |ALPHABET| == 64 && |UPPER| == |LOWER| == 26 && |TENS| == 10
    ensures ALPHABET[v] == if v < 26 then UPPER[v] else if v < 52 then LOWER[v - 26] else if v < 62 then TENS[v - 52]
                           else if v == 62 then '+' else '/'
  {
    assert |UPPER| == |LOWER| == 26 && |TENS| == 10;
  }

  lemma UpperAt(i: nat)
    requires i < 26
    ensures UPPER[i] as int == 'A' as int + i
  {}

  lemma LowerAt(i: nat)
    requires i < 26
    ensures LOWER[i] as int == 'a' as int + i
  {}

  lemma TensAt(i: nat)
    requires i < 10
    ensures TENS[i] as int == '0' as int + i
  {}

  // ---------------------------------------------------------------- encoding

  /** Three bytes as four digits. */
  function Quad(x: byte, y: byte, z: byte): (q: string)
    ensures |q| == 4
  {
    [Digit(x / 4), Digit(x % 4 * 16 + y / 16), Digit(y % 16 * 4 + z / 64), Digit(z % 64)]
  }

  /** The missing bytes of a short last group count as 0, and their digits give way to padding. */
  function Encoded(s: Bytes): string {
    if |s| == 0 then []
    else if |s| == 1 then Quad(s[0], 0, 0)[..2] + "=="
    else if |s| == 2 then Quad(s[0], s[1], 0)[..3] + "="
    else Quad(s[0], s[1], s[2]) + Encoded(s[3..])
  }

  lemma {:induction false} EncodedLength(s: Bytes)
    ensures |Encoded(s)| == (|s| + 2) / 3 * 4
  {
    hide Quad, Digit;
    if |s| >= 3 { EncodedLength(s[3..]); }
  }

  /** The 24-bit number a group's bytes make up. */
  function Packed(x: byte, y: byte, z: byte): (v: nat)
    ensures v < 0x1000000
  {
    x * 65536 + y * 256 + z
  }

  lemma SixBits(v: nat, x1: nat, x0: nat, y1: nat, y0: nat, z1: nat, z0: nat)
    requires x1 < 64 && x0 < 4 && y1 < 16 && y0 < 16 && z1 < 4 && z0 < 64
    requires v == (4 * x1 + x0) * 65536 + (16 * y1 + y0) * 256 + (64 * z1 + z0)
    ensures v / 262144 == x1 && v / 4096 % 64 == x0 * 16 + y1 && v / 64 % 64 == y0 * 4 + z1 && v % 64 == z0
  {
    By64(v, 4096 * x1 + 1024 * x0 + 64 * y1 + 4 * y0 + z1, z0);
    By64(4096 * x1 + 1024 * x0 + 64 * y1 + 4 * y0 + z1, 64 * x1 + 16 * x0 + y1, 4 * y0 + z1);
    By4096(v, 64 * x1 + 16 * x0 + y1, 256 * y0 + 64 * z1 + z0);
    By64(64 * x1 + 16 * x0 + y1, x1, 16 * x0 + y1);
    By262144(v, x1, 65536 * x0 + 256 * (16 * y1 + y0) + 64 * z1 + z0);
  }

  lemma By64(v: nat, q: nat, r: nat)
    requires v == 64 * q + r && r < 64
    ensures v / 64 == q && v % 64 == r
  {}

  lemma By4096(v: nat, q: nat, r: nat)
    requires v == 4096 * q + r && r < 4096
    ensures v / 4096 == q
  {}

  lemma By262144(v: nat, q: nat, r: nat)
    requires v == 262144 * q + r && r < 262144
    ensures v / 262144 == q
  {}

  lemma PackedDigits(x: byte, y: byte, z: byte)
    ensures var v := Packed(x, y, z);
            Quad(x, y, z) == [Digit(v / 262144), Digit(v / 4096 % 64), Digit(v / 64 % 64), Digit(v % 64)]
  {
    hide Digit, Value;
    var x1: nat, x0: nat, y1: nat, y0: nat, z1: nat, z0: nat := x / 4, x % 4, y / 16, y % 16, z / 64, z % 64;
    assert x == 4 * x1 + x0 && y == 16 * y1 + y0 && z == 64 * z1 + z0;
    SixBits(Packed(x, y, z), x1, x0, y1, y0, z1, z0);
  }

  method Base64Encode(s: Bytes) returns (text: string)
    ensures text == Encoded(s)
  {
    hide Digit, Value, Packed;
    text := [];
    var i := 0;
    assert s[0..] == s;
    while i + 3 <= |s|
      invariant 0 <= i <= |s| && text + Encoded(s[i..]) == Encoded(s)
    {
      var v := Packed(s[i], s[i + 1], s[i + 2]);
      PackedDigits(s[i], s[i + 1], s[i + 2]);
      EncodedStep(text, s[i..]);
      text := text + [Digit(v / 262144), Digit(v / 4096 % 64), Digit(v / 64 % 64), Digit(v % 64)];
      i := i + 3;
    }
    if |s| - i == 1 {
      var v := Packed(s[i], 0, 0);
      PackedDigits(s[i], 0, 0);
      text := text + ([Digit(v / 262144), Digit(v / 4096 % 64)] + "==");
    } else if |s| - i == 2 {
      var v := Packed(s[i], s[i + 1], 0);
      PackedDigits(s[i], s[i + 1], 0);
      text := text + ([Digit(v / 262144), Digit(v / 4096 % 64), Digit(v / 64 % 64)] + "=");
    }
  }

  lemma EncodedStep(before: string, s: Bytes)
    requires |s| >= 3
    ensures before + Encoded(s) == (before + Quad(s[0], s[1], s[2])) + Encoded(s[3..])
  {}

  // ---------------------------------------------------------------- decoding, one group at a time

  /** The three bytes that four six-bit digits spell. */
  function Three(v0: nat, v1: nat, v2: nat, v3: nat): (b: Bytes)
    requires v0 < 64 && v1 < 64 && v2 < 64 && v3 < 64
    ensures |b| == 3
  {
    [v0 * 4 + v1 / 16, v1 % 16 * 16 + v2 / 4, v2 % 4 * 64 + v3]
  }

  /** A padding character counts as 0 where it is let through. */
  function Padded(c: char): (v: int)
    ensures -1 <= v < 64
  {
    if c == '=' then 0 else Value(c)
  }

  /** Leaves out the byte of each position that holds padding. */
  function Kept(b: Bytes, c2: char, c3: char): (r: Bytes)
    requires |b| == 3
    ensures |r| == 1 + (if c2 == '=' then 0 else 1) + (if c3 == '=' then 0 else 1)
  {
    if c2 == '=' then if c3 == '=' then [b[0]] else [b[0], b[2]]
    else if c3 == '=' then [b[0], b[1]] else b
  }

  datatype Decoder = ManifestDecoder | IndexDecoder | PackDecoder

  /** What each decoder makes of one group of four characters. */
  function Group(dec: Decoder, c0: char, c1: char, c2: char, c3: char): (r: Option<Bytes>) {
    match dec
    case ManifestDecoder =>
      if Value(c0) < 0 || Value(c1) < 0 || Padded(c2) < 0 || Padded(c3) < 0 then None
      else Some(Kept(Three(Value(c0), Value(c1), Padded(c2), Padded(c3)), c2, c3))
    case IndexDecoder =>
      if Padded(c0) < 0 || Padded(c1) < 0 || Padded(c2) < 0 || Padded(c3) < 0 then None
      else Some(Kept(Three(Padded(c0), Padded(c1), Padded(c2), Padded(c3)), c2, c3))
    case PackDecoder =>
      if Value(c0) < 0 || Value(c1) < 0 || Padded(c2) < 0 || Padded(c3) < 0 then None
      else Some(Three(Value(c0), Value(c1), Padded(c2), Padded(c3)))
  }

  /** Whole groups one after another. */
  function Groups(dec: Decoder, text: string): Option<Bytes> {
    if |text| < 4 then Some([])
    else
      match Group(dec, text[0], text[1], text[2], text[3])
      case None => None
      case Some(b) =>
        match Groups(dec, text[4..])
        case None => None
        case Some(rest) => Some(b + rest)
  }

  /** How many of the last two characters are padding. */
  function Padding(text: string): nat {
    (if |text| >= 1 && text[|text| - 1] == '=' then 1 else 0)
    + (if |text| >= 2 && text[|text| - 2] == '=' then 1 else 0)
  }

  lemma {:induction false} PackGroupsLength(text: string)
    requires |text| % 4 == 0 && Groups(PackDecoder, text).Some?
    ensures |Groups(PackDecoder, text).value| == |text| / 4 * 3
  {
    hide Value, Padded, Three;
    if |text| >= 4 { PackGroupsLength(text[4..]); }
  }

  /** The pack reader decodes padding too and cuts it off at the end. */
  function Decoded(dec: Decoder, text: string): Option<Bytes> {
    if |text| % 4 != 0 then None
    else
      match Groups(dec, text)
      case None => None
      case Some(b) =>
        if dec == PackDecoder then
          PackGroupsLength(text);
          Some(b[..|b| - Padding(text)])
        else Some(b)
  }

  // ---------------------------------------------------------------- decoding inverts encoding

  lemma QuadThree(x: byte, y: byte, z: byte)
    ensures Three(x / 4, x % 4 * 16 + y / 16, y % 16 * 4 + z / 64, z % 64) == [x, y, z]
  {}

  lemma WholeGroup(dec: Decoder, x: byte, y: byte, z: byte)
    ensures var q := Quad(x, y, z); Group(dec, q[0], q[1], q[2], q[3]) == Some([x, y, z])
  {
    QuadThree(x, y, z);
    hide Digit, Value, Three;
  }

  /** What the padded last group decodes to when one byte of it is real. */
  lemma OneByteGroup(dec: Decoder, x: byte)
    ensures var q := Quad(x, 0, 0);
            Group(dec, q[0], q[1], '=', '=') == Some(if dec == PackDecoder then [x, 0, 0] else [x])
  {
    QuadThree(x, 0, 0);
    hide Digit, Value, Three;
  }

  /** And when two are. */
  lemma TwoByteGroup(dec: Decoder, x: byte, y: byte)
    ensures var q := Quad(x, y, 0);
            Group(dec, q[0], q[1], q[2], '=') == Some(if dec == PackDecoder then [x, y, 0] else [x, y])
  {
    QuadThree(x, y, 0);
    hide Digit, Value, Three;
  }

  lemma OneMoreGroup(dec: Decoder, q: string, rest: string)
    requires |q| == 4
    ensures Groups(dec, q + rest) ==
            match Group(dec, q[0], q[1], q[2], q[3])
            case None => None
            case Some(b) => match Groups(dec, rest)
                            case None => None
                            case Some(r) => Some(b + r)
  {
    hide Group;
    assert (q + rest)[4..] == rest;
  }

  lemma OneGroup(dec: Decoder, q: string)
    requires |q| == 4
    ensures Groups(dec, q) == Group(dec, q[0], q[1], q[2], q[3])
  {
    hide Group;
    assert q[4..] == [];
    if Group(dec, q[0], q[1], q[2], q[3]).Some? {
      var b := Group(dec, q[0], q[1], q[2], q[3]).value;
      assert b + [] == b;
    }
  }

  lemma PaddingBehind(x: byte, y: byte, z: byte, rest: string)
    requires rest == [] || |rest| >= 2
    ensures Padding(Quad(x, y, z) + rest) == Padding(rest)
  {
    hide Digit;
  }

  lemma {:induction false} EncodedLong(s: Bytes)
    ensures Encoded(s) == [] || |Encoded(s)| >= 4
  {
    hide Quad;
  }

  /** Decoded group by group, an encoding gives the bytes back, and after them one byte a padding character
      where the decoder keeps those. */
  lemma {:induction false} GroupsInvert(dec: Decoder, s: Bytes)
    ensures var b := Groups(dec, Encoded(s));
            && b.Some? && s <= b.value
            && |b.value| == |s| + if dec == PackDecoder then Padding(Encoded(s)) else 0
  {
    hide Group, Groups, Quad;
    if |s| == 0 {
      NoGroups(dec);
    } else if |s| == 1 {
      OneByteGroup(dec, s[0]);
      OneGroup(dec, Encoded(s));
    } else if |s| == 2 {
      TwoByteGroup(dec, s[0], s[1]);
      OneGroup(dec, Encoded(s));
      QuadUnpadded(s[0], s[1], 0);
    } else {
      WholeGroup(dec, s[0], s[1], s[2]);
      OneMoreGroup(dec, Quad(s[0], s[1], s[2]), Encoded(s[3..]));
      EncodedLong(s[3..]);
      PaddingBehind(s[0], s[1], s[2], Encoded(s[3..]));
      GroupsInvert(dec, s[3..]);
      assert s == [s[0], s[1], s[2]] + s[3..];
    }
  }

  lemma NoGroups(dec: Decoder)
    ensures Groups(dec, []) == Some([])
  {}

  lemma QuadUnpadded(x: byte, y: byte, z: byte)
    ensures forall i :: 0 <= i < 4 ==> Quad(x, y, z)[i] != '='
  {}

  lemma EncodedWhole(s: Bytes)
    ensures |Encoded(s)| % 4 == 0
  {
    hide *;
    EncodedLength(s);
    WholeGroups((|s| + 2) / 3, |Encoded(s)|);
  }

  lemma WholeGroups(k: int, n: int)
    requires n == k * 4
    ensures n % 4 == 0
  {}

  lemma CutToPrefix(s: Bytes, b: Bytes)
    requires s <= b
    ensures b[..|s|] == s && (|b| == |s| ==> b == s)
  {}

  /** Every decoder inverts the encoder, on every byte string. */
  lemma DecodedInvertsEncoded(dec: Decoder, s: Bytes)
    ensures Decoded(dec, Encoded(s)) == Some(s)
  {
    hide Groups, Encoded, Padding;
    EncodedWhole(s);
    GroupsInvert(dec, s);
    CutToPrefix(s, Groups(dec, Encoded(s)).value);
  }

  lemma QuadIs(x: byte, y: byte, z: byte, d0: nat, d1: nat, d2: nat, d3: nat)
    requires d0 < 64 && d1 < 64 && d2 < 64 && d3 < 64
    requires x == 4 * d0 + d1 / 16 && y == d1 % 16 * 16 + d2 / 4 && z == d2 % 4 * 64 + d3
    ensures Quad(x, y, z) == [Digit(d0), Digit(d1), Digit(d2), Digit(d3)]
  {
    hide Digit, Value;
    QuadThree(x, y, z);
    assert x / 4 == d0 && x % 4 * 16 + y / 16 == d1 && y % 16 * 4 + z / 64 == d2 && z % 64 == d3;
  }

  lemma VectorDigits()
    ensures Digit(25) == 'Z' && Digit(32) == 'g' && Digit(0) == 'A' && Digit(38) == 'm' && Digit(60) == '8'
    ensures Digit(61) == '9' && Digit(47) == 'v' && Digit(24) == 'Y' && Digit(5) == 'F' && Digit(50) == 'y'
  {}

  lemma EncodedShort(x: byte, y: byte, z: byte)
    ensures Encoded([x]) == Quad(x, 0, 0)[..2] + "==" && Encoded([x, y]) == Quad(x, y, 0)[..3] + "="
    ensures Encoded([x, y, z]) == Quad(x, y, z)
  {
    hide Quad;
    assert [x, y, z][3..] == [];
    assert Encoded([]) == [];
    assert Quad(x, y, z) + [] == Quad(x, y, z);
  }

  lemma EncodedSix(s: Bytes)
    requires |s| == 6
    ensures Encoded(s) == Quad(s[0], s[1], s[2]) + Quad(s[3], s[4], s[5])
  {
    hide Quad;
    assert s[3..] == [s[3], s[4], s[5]];
    EncodedShort(s[3], s[4], s[5]);
  }

  /** The encodings of "f", "fo", "foo" and "foobar" in section 10 of RFC 4648. */
  lemma TestVectors()
    ensures Encoded([102]) == "Zg==" && Encoded([102, 111]) == "Zm8=" && Encoded([102, 111, 111]) == "Zm9v"
    ensures Encoded([102, 111, 111, 98, 97, 114]) == "Zm9vYmFy"
  {
    hide Encoded, Quad, Digit, Value;
    VectorDigits();
    EncodedShort(102, 111, 111);
    EncodedSix([102, 111, 111, 98, 97, 114]);
    QuadIs(102, 0, 0, 25, 32, 0, 0);
    QuadIs(102, 111, 0, 25, 38, 60, 0);
    QuadIs(102, 111, 111, 25, 38, 61, 47);
    QuadIs(98, 97, 114, 24, 38, 5, 50);
  }

  // ---------------------------------------------------------------- the loops

  lemma GroupsFrom(dec: Decoder, text: string, i: nat, done: Bytes)
    requires i + 4 <= |text|
    ensures var g := Group(dec, text[i], text[i + 1], text[i + 2], text[i + 3]);
            && (g.None? ==> Groups(dec, text[i..]) == None)
            && (g.Some? ==> After(done, Groups(dec, text[i..])) == After(done + g.value, Groups(dec, text[i + 4..])))
  {
    hide Group;
    assert text[i..][4..] == text[i + 4..];
    var g, r := Group(dec, text[i], text[i + 1], text[i + 2], text[i + 3]), Groups(dec, text[i + 4..]);
    if g.Some? && r.Some? { assert done + (g.value + r.value) == (done + g.value) + r.value; }
  }

  /** What is decoded so far, and then the rest if that can be. */
  function After(done: Bytes, rest: Option<Bytes>): Option<Bytes> {
    match rest
    case None => None
    case Some(b) => Some(done + b)
  }

  lemma GroupsDone(dec: Decoder, text: string, done: Bytes)
    ensures After(done, Groups(dec, text[|text|..])) == Some(done)
    ensures After([], Groups(dec, text[0..])) == Groups(dec, text)
  {
    assert text[0..] == text && done + [] == done;
    if Groups(dec, text).Some? { assert [] + Groups(dec, text).value == Groups(dec, text).value; }
  }

  /** The 24-bit number of a group, and its bytes. */
  method Unpack(v0: nat, v1: nat, v2: nat, v3: nat) returns (b: Bytes)
    requires v0 < 64 && v1 < 64 && v2 < 64 && v3 < 64
    ensures b == Three(v0, v1, v2, v3)
  {
    hide Three;
    var triple: nat := v0 * 262144 + v1 * 4096 + v2 * 64 + v3;
    var x: nat, y: nat, z: nat := triple / 65536, triple / 256 % 256, triple % 256;
    TripleSplit(v0, v1, v2, v3, triple, x, y, z);
    b := [x, y, z];
  }

  lemma TripleSplit(v0: nat, v1: nat, v2: nat, v3: nat, triple: nat, x: nat, y: nat, z: nat)
    requires v0 < 64 && v1 < 64 && v2 < 64 && v3 < 64
    requires triple == v0 * 262144 + v1 * 4096 + v2 * 64 + v3
    requires x == triple / 65536 && y == triple / 256 % 256 && z == triple % 256
    ensures x < 256 && y < 256 && z < 256 && Three(v0, v1, v2, v3) == [x, y, z]
  {
    var p1: nat, q1: nat, p2: nat, q2: nat := v1 / 16, v1 % 16, v2 / 4, v2 % 4;
    SixteensAndFours(v1, v2, p1, q1, p2, q2);
    EightBits(triple, v0, p1, q1, p2, q2, v3);
    assert Three(v0, v1, v2, v3) == [v0 * 4 + p1, q1 * 16 + p2, q2 * 64 + v3];
  }

  lemma SixteensAndFours(v1: nat, v2: nat, p1: nat, q1: nat, p2: nat, q2: nat)
    requires v1 < 64 && v2 < 64 && p1 == v1 / 16 && q1 == v1 % 16 && p2 == v2 / 4 && q2 == v2 % 4
    ensures p1 < 4 && q1 < 16 && p2 < 16 && q2 < 4 && v1 == p1 * 16 + q1 && v2 == p2 * 4 + q2
  {}

  lemma EightBits(v: nat, v0: nat, p1: nat, q1: nat, p2: nat, q2: nat, v3: nat)
    requires v0 < 64 && p1 < 4 && q1 < 16 && p2 < 16 && q2 < 4 && v3 < 64
    requires v == v0 * 262144 + (p1 * 16 + q1) * 4096 + (p2 * 4 + q2) * 64 + v3
    ensures v / 65536 == v0 * 4 + p1 && v / 256 % 256 == q1 * 16 + p2 && v % 256 == q2 * 64 + v3
  {
    assert v == 65536 * (v0 * 4 + p1) + (256 * (q1 * 16 + p2) + (q2 * 64 + v3));
    assert v == 256 * (256 * (v0 * 4 + p1) + (q1 * 16 + p2)) + (q2 * 64 + v3);
  }

  /** The snapshot reader's decoder. */
  method ManifestDecode(text: string) returns (r: Option<Bytes>)
    ensures r == Decoded(ManifestDecoder, text)
  {
    hide Groups, Value, Three;
    GroupsDone(ManifestDecoder, text, []);
    if |text| == 0 { return Some([]); }
    if |text| % 4 != 0 { return None; }
    var buf: Bytes := [];
    var i := 0;
    while i < |text|
      invariant 0 <= i <= |text| && (|text| - i) % 4 == 0
      invariant After(buf, Groups(ManifestDecoder, text[i..])) == Groups(ManifestDecoder, text)
    {
      GroupsFrom(ManifestDecoder, text, i, buf);
      var c0, c1 := Value(text[i]), Value(text[i + 1]);
      var c2 := if text[i + 2] == '=' then 0 else Value(text[i + 2]);
      var c3 := if text[i + 3] == '=' then 0 else Value(text[i + 3]);
      if c0 < 0 || c1 < 0 || (text[i + 2] != '=' && c2 < 0) || (text[i + 3] != '=' && c3 < 0) { return None; }
      var b := Unpack(c0, c1, c2, c3);
      buf := buf + Kept(b, text[i + 2], text[i + 3]);
      i := i + 4;
    }
    GroupsDone(ManifestDecoder, text, buf);
    return Some(buf);
  }

  /** The index loader's: padding counts as 0 anywhere, and a bad character is noticed after its group. */
  method IndexDecode(text: string) returns (r: Option<Bytes>)
    ensures r == Decoded(IndexDecoder, text)
  {
    hide Groups, Value, Three;
    GroupsDone(IndexDecoder, text, []);
    if |text| % 4 != 0 { return None; }
    var buf: Bytes := [];
    var i, bad := 0, false;
    while i < |text| && !bad
      invariant 0 <= i <= |text| && (|text| - i) % 4 == 0
      invariant bad ==> Groups(IndexDecoder, text) == None
      invariant !bad ==> After(buf, Groups(IndexDecoder, text[i..])) == Groups(IndexDecoder, text)
    {
      GroupsFrom(IndexDecoder, text, i, buf);
      var v0, v1, v2, v3 := Padded(text[i]), Padded(text[i + 1]), Padded(text[i + 2]), Padded(text[i + 3]);
      if v0 < 0 || v1 < 0 || v2 < 0 || v3 < 0 { bad := true; }
      var b := Unpack(Max0(v0), Max0(v1), Max0(v2), Max0(v3));
      buf := buf + Kept(b, text[i + 2], text[i + 3]);
      i := i + 4;
    }
    if bad { return None; }
    GroupsDone(IndexDecoder, text, buf);
    return Some(buf);
  }

  /** A bad character counts as 0 until its group has been decoded. */
  function Max0(v: int): (r: nat)
    ensures v < 64 ==> r < 64
  {
    if v < 0 then 0 else v
  }

  /** The pack manifest reader's: three bytes a group, and as many fewer at the end as the last two characters
      are padding. */
  method PackDecode(text: string) returns (r: Option<Bytes>)
    ensures r == Decoded(PackDecoder, text)
  {
    hide Groups, Value, Three;
    if |text| % 4 != 0 { return None; }
    GroupsDone(PackDecoder, text, []);
    var pad := 0;
    if |text| >= 1 && text[|text| - 1] == '=' { pad := pad + 1; }
    if |text| >= 2 && text[|text| - 2] == '=' { pad := pad + 1; }
    var out: Bytes := [];
    var i := 0;
    while i < |text|
      invariant 0 <= i <= |text| && (|text| - i) % 4 == 0
      invariant After(out, Groups(PackDecoder, text[i..])) == Groups(PackDecoder, text)
    {
      GroupsFrom(PackDecoder, text, i, out);
      var v0, v1, v2, v3 := Value(text[i]), Value(text[i + 1]), Padded(text[i + 2]), Padded(text[i + 3]);
      if v0 < 0 || v1 < 0 || v2 < 0 || v3 < 0 { return None; }
      var b := Unpack(v0, v1, v2, v3);
      out := out + b;
      i := i + 4;
    }
    GroupsDone(PackDecoder, text, out);
    PackGroupsLength(text);
    return Some(out[..|out| - pad]);
  }

  // ---------------------------------------------------------------- where the decoders differ

  /** No padding in the first two characters of a group. */
  predicate PaddedLate(text: string) {
    |text| >= 4 ==> text[0] != '=' && text[1] != '=' && PaddedLate(text[4..])
  }

  /** How many groups' third and fourth characters are padding. */
  function Pads(text: string): nat {
    if |text| < 4 then 0
    else (if text[2] == '=' then 1 else 0) + (if text[3] == '=' then 1 else 0) + Pads(text[4..])
  }

  lemma {:induction false} ManifestGroupsExactly(text: string)
    ensures Groups(ManifestDecoder, text) == if PaddedLate(text) then Groups(IndexDecoder, text) else None
  {
    hide Value, Three;
    if |text| >= 4 {
      EqualsIsNoDigit();
      ManifestGroupsExactly(text[4..]);
    }
  }

  lemma EqualsIsNoDigit()
    ensures Value('=') == -1
  {}

  /** The index loader lets through exactly what the snapshot reader does, and padding too early in a group. */
  lemma ManifestAcceptsExactly(text: string)
    ensures Decoded(ManifestDecoder, text) == if PaddedLate(text) then Decoded(IndexDecoder, text) else None
  {
    hide Groups, PaddedLate;
    ManifestGroupsExactly(text);
  }

  /** Group by group: the same texts are accepted, and the pack reader's bytes are more by the padding. */
  lemma {:induction false} PackGroupsLonger(text: string)
    ensures var m, p := Groups(ManifestDecoder, text), Groups(PackDecoder, text);
            && m.Some? == p.Some?
            && (m.Some? ==> |p.value| == |m.value| + Pads(text))
            && (m.Some? && Pads(text) == 0 ==> m == p)
  {
    hide Value, Padded, Three;
    if |text| >= 4 { PackGroupsLonger(text[4..]); }
  }

  /** A single padding character stands last. */
  predicate PaddedInOrder(text: string) {
    |text| >= 2 && text[|text| - 2] == '=' ==> text[|text| - 1] == '='
  }

  lemma GroupAgrees(c0: char, c1: char, c2: char, c3: char)
    requires Group(ManifestDecoder, c0, c1, c2, c3).Some?
    ensures var m, p := Group(ManifestDecoder, c0, c1, c2, c3), Group(PackDecoder, c0, c1, c2, c3);
            && p.Some? && |p.value| == 3
            && (c2 != '=' && c3 != '=' ==> m == p)
            && (c3 == '=' ==> m.value == p.value[..if c2 == '=' then 1 else 2])
  {
    hide Value, Padded, Three;
  }

  /** A digit behind padding: one reader keeps the third byte of the group, the other the second. */
  lemma LooseDigit(c0: char, c1: char, c3: char)
    requires Group(ManifestDecoder, c0, c1, '=', c3).Some? && c3 != '='
    ensures var m, p := Group(ManifestDecoder, c0, c1, '=', c3), Group(PackDecoder, c0, c1, '=', c3);
            p.Some? && |p.value| == 3 && (m.value == p.value[..2] <==> Value(c3) == Value(c1) % 16 * 16)
  {
    hide Value;
    var m, p := Group(ManifestDecoder, c0, c1, '=', c3).value, Group(PackDecoder, c0, c1, '=', c3).value;
    assert m == [p[0], p[2]] && p[..2] == [p[0], p[1]];
  }

  lemma PrefixBehind(b: Bytes, p: Bytes, k: nat)
    requires k <= |p|
    ensures (b + p)[..|b| + |p| - k] == b + p[..|p| - k]
  {}

  lemma SameBehind(b: Bytes, x: Bytes, y: Bytes)
    ensures b + x == b + y <==> x == y
  {
    assert (b + x)[|b|..] == x && (b + y)[|b|..] == y;
  }

  /** Padding in order at the end, or a last digit that happens to spell the byte the padding left unfinished. */
  predicate LastMatches(text: string) {
    var n := |text|;
    PaddedInOrder(text) || (n >= 3 && Value(text[n - 1]) == Value(text[n - 3]) % 16 * 16)
  }

  lemma PaddingOfRest(text: string)
    requires |text| >= 8
    ensures Padding(text) == Padding(text[4..]) && LastMatches(text) == LastMatches(text[4..])
  {}

  lemma LastGroupCut(text: string)
    requires |text| == 4 && Groups(ManifestDecoder, text).Some?
    ensures Padding(text) == Pads(text)
    ensures var m, p := Groups(ManifestDecoder, text).value, Groups(PackDecoder, text);
            && p.Some? && |p.value| == 3
            && (m == p.value[..|p.value| - Padding(text)] <==> LastMatches(text))
  {
    hide Group, Value, Groups;
    assert text[4..] == [];
    OneGroup(ManifestDecoder, text);
    OneGroup(PackDecoder, text);
    GroupAgrees(text[0], text[1], text[2], text[3]);
    if text[2] == '=' && text[3] != '=' { LooseDigit(text[0], text[1], text[3]); }
  }

  lemma {:induction false} PackGroupsCut(text: string)
    requires |text| % 4 == 0 && Groups(ManifestDecoder, text).Some?
    ensures Padding(text) <= Pads(text)
    ensures var m, p := Groups(ManifestDecoder, text).value, Groups(PackDecoder, text);
            && p.Some? && |p.value| == |m| + Pads(text)
            && (Pads(text) == Padding(text) ==> (m == p.value[..|p.value| - Padding(text)] <==> LastMatches(text)))
  {
    PackGroupsLonger(text);
    hide Group, LastMatches, Padding;
    if |text| == 4 {
      LastGroupCut(text);
    } else if |text| > 4 {
      var rest := text[4..];
      PaddingOfRest(text);
      PackGroupsCut(rest);
      GroupAgrees(text[0], text[1], text[2], text[3]);
      if Pads(text) == Padding(text) {
        var b, p := Group(PackDecoder, text[0], text[1], text[2], text[3]).value, Groups(PackDecoder, rest).value;
        PrefixBehind(b, p, Padding(text));
        SameBehind(b, Groups(ManifestDecoder, rest).value, p[..|p| - Padding(text)]);
      }
    } else {
      NothingPadded(text);
    }
  }

  lemma NothingPadded(text: string)
    requires text == ""
    ensures Padding(text) == 0 && LastMatches(text)
  {}

  /** The pack reader accepts what the snapshot reader does, and reads the same bytes exactly when padding stands
      nowhere but at the very end, and, if a digit comes behind it there, that digit spells the byte begun. */
  lemma PackAgreesExactly(text: string)
    ensures Decoded(PackDecoder, text).Some? == Decoded(ManifestDecoder, text).Some?
    ensures Decoded(ManifestDecoder, text).Some?
            ==> (Decoded(PackDecoder, text) == Decoded(ManifestDecoder, text)
                 <==> Pads(text) == Padding(text) && LastMatches(text))
  {
    PackGroupsLonger(text);
    hide Groups, Pads, Padding, LastMatches;
    if |text| % 4 == 0 && Groups(ManifestDecoder, text).Some? { PackGroupsCut(text); }
  }
}
