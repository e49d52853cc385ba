/** The file names of packs, and which of them a scan of the directory recognises as archives. */
module PackNames {
  import opened Types
  import opened OnDisk
  import opened Decimals
  import opened Int64

  function Suffix(name: Name): (s: string)
    ensures s != [] && s[0] == '.'
  {
    match name
    case Archive(_) => ARCHIVE_SUFFIX
    case Manifest(_) => ".json"
    case ArchivePart(_) => ".tar.zst.part"
    case ManifestPart(_) => ".json.part"
  }

  function Zeros(k: nat): (s: string)
    ensures |s| == k && AllDigits(s)
  {
    if k == 0 then [] else ['0'] + Zeros(k - 1)
  }

  /** Six digits, or as many as it takes. */
  function Padded(n: nat): (s: string)
    ensures |s| >= 6 && AllDigits(s)
  {
    var d := Digits(n);
    if |d| >= 6 then d else Zeros(6 - |d|) + d
  }

  const PREFIX := "pack-"

  function FileName(name: Name): string { PREFIX + Padded(name.n) + Suffix(name) }

  // ---------------------------------------------------------------- scanf, as far as it is used

  predicate IsSpace(c: char) { c == ' ' || '\t' <= c <= '\r' }

  predicate AllSpace(s: string) { forall i :: 0 <= i < |s| ==> IsSpace(s[i]) }

  predicate NoSpace(s: string) { forall i :: 0 <= i < |s| ==> !IsSpace(s[i]) }

  /** The string from its first character that is no white space on. */
  function SkipSpace(s: string): (t: string)
    ensures t != [] ==> !IsSpace(t[0])
  {
    if s != [] && IsSpace(s[0]) then SkipSpace(s[1..]) else s
  }

  /** How many of the first characters, without a gap and no more than `most`, are digits. */
  function DigitRun(s: string, most: nat): (k: nat)
    ensures k <= |s| && k <= most && forall i :: 0 <= i < k ==> IsDigit(s[i])
    ensures k < most && k < |s| ==> !IsDigit(s[k])
  {
    if most == 0 || s == [] || !IsDigit(s[0]) then 0 else 1 + DigitRun(s[1..], most - 1)
  }

  function WordRun(s: string, most: nat): (k: nat)
    ensures k <= |s| && k <= most && forall i :: 0 <= i < k ==> !IsSpace(s[i])
    ensures k < most && k < |s| ==> IsSpace(s[k])
  {
    if most == 0 || s == [] || IsSpace(s[0]) then 0 else 1 + WordRun(s[1..], most - 1)
  }

  /** `%15s`: up to 15 characters that are no white space, behind any that is; the empty string if there are none. */
  function ReadWord(s: string): string {
    var t := SkipSpace(s);
    t[..WordRun(t, 15)]
  }

  predicate IsSign(c: char) { c == '+' || c == '-' }

  /** An unsigned number with a minus sign is negated modulo 2^64. */
  function Signed(sign: string, digits: string): nat
    requires AllDigits(digits)
  {
    if sign == "-" then (TWO_64 - Decimal(digits) % TWO_64) % TWO_64 else Decimal(digits)
  }

  datatype Read = Read(value: nat, rest: string)

  /** `%6lu`: up to six characters, a sign among them, behind any white space; and what follows. */
  function ReadNumber(s: string): Option<Read> {
    var t := SkipSpace(s);
    var g := if t != [] && IsSign(t[0]) then 1 else 0;
    var u := t[g..];
    var k := DigitRun(u, 6 - g);
    if k == 0 then None else Some(Read(Signed(t[..g], u[..k]), u[k..]))
  }

  /** The numbering of packs: a number, and as the next word exactly the archives' suffix. */
  function Scanned(s: string): Option<nat> {
    if !(PREFIX <= s) then None
    else
      match ReadNumber(s[|PREFIX|..])
      case None => None
      case Some(r) => if ReadWord(r.rest) == ARCHIVE_SUFFIX then Some(r.value) else None
  }

  const ARCHIVE_SUFFIX := ".tar.zst"

  /** Recovery's test of a name: without the archives' suffix at its end it fits 64 bytes with their terminator, and
      is a number and nothing more. */
  predicate RecoveryScans(s: string) {
    && |s| > |ARCHIVE_SUFFIX| && s[|s| - |ARCHIVE_SUFFIX|..] == ARCHIVE_SUFFIX
    && var stem := s[..|s| - |ARCHIVE_SUFFIX|];
    && |stem| < 64 && PREFIX <= stem
    && var r := ReadNumber(stem[|PREFIX|..]);
       r.Some? && r.value.rest == ""
  }

  /** No white space behind the number. */
  predicate NothingApart(s: string) {
    PREFIX <= s && ReadNumber(s[|PREFIX|..]).Some? && NoSpace(ReadNumber(s[|PREFIX|..]).value.rest)
  }

  // ---------------------------------------------------------------- which names are recognised

  lemma {:induction false} DecimalZero(s: string)
    requires AllDigits(s)
    ensures AllDigits(['0'] + s) && Decimal(['0'] + s) == Decimal(s)
  {
    var t := ['0'] + s;
    if s == [] {
      assert t == ['0'] && ['0'][..0] == [];
    } else {
      assert t[..|t| - 1] == ['0'] + s[..|s| - 1];
      DecimalZero(s[..|s| - 1]);
    }
  }

  lemma {:induction false} DecimalZeros(k: nat, s: string)
    requires AllDigits(s)
    ensures AllDigits(Zeros(k) + s) && Decimal(Zeros(k) + s) == Decimal(s)
  {
    if k == 0 {
      assert Zeros(0) + s == s;
    } else {
      DecimalZeros(k - 1, s);
      assert Zeros(k) + s == ['0'] + (Zeros(k - 1) + s);
      DecimalZero(Zeros(k - 1) + s);
    }
  }

  lemma DecimalOfPadded(n: nat)
    ensures Decimal(Padded(n)) == n
  {
    DecimalOfDigits(n);
    if |Digits(n)| < 6 { DecimalZeros(6 - |Digits(n)|, Digits(n)); }
  }

  lemma PaddedLength(n: nat)
    ensures |Padded(n)| == 6 <==> n < PACK_LIMIT
  {
    DigitsLength(n, 6);
    assert Power10(6) == 1000000 by { assert Power10(3) == 1000; }
  }

  /** A scanned number taken apart: white space, at most one sign, digits up to the width or to where they end. */
  ghost predicate Parts(w: string, g: string, d: string, rest: string) {
    && AllSpace(w) && |g| <= 1 && (g != [] ==> IsSign(g[0])) && AllDigits(d) && 0 < |d| <= 6 - |g|
    && (|d| == 6 - |g| || rest == [] || !IsDigit(rest[0]))
  }

  lemma {:induction false} SkipSpaceOver(w: string, t: string)
    requires AllSpace(w) && (t == [] || !IsSpace(t[0]))
    ensures SkipSpace(w + t) == t
  {
    if w == [] {
      assert w + t == t;
    } else {
      assert (w + t)[1..] == w[1..] + t;
      SkipSpaceOver(w[1..], t);
    }
  }

  lemma {:induction false} SpaceSkipped(s: string)
    ensures var t := SkipSpace(s);
            |t| <= |s| && s[|s| - |t|..] == t && AllSpace(s[..|s| - |t|])
  {
    if s != [] && IsSpace(s[0]) {
      SpaceSkipped(s[1..]);
      assert forall i :: 0 < i < |s| ==> s[i] == s[1..][i - 1];
    }
  }

  lemma {:induction false} DigitRunIs(s: string, most: nat, k: nat)
    requires k <= |s| && k <= most && forall i :: 0 <= i < k ==> IsDigit(s[i])
    requires k == most || k == |s| || !IsDigit(s[k])
    ensures DigitRun(s, most) == k
  {
    if k > 0 { DigitRunIs(s[1..], most - 1, k - 1); }
  }

  lemma {:induction false} WordRunIs(s: string, most: nat, k: nat)
    requires k <= |s| && k <= most && forall i :: 0 <= i < k ==> !IsSpace(s[i])
    requires k == most || k == |s| || IsSpace(s[k])
    ensures WordRun(s, most) == k
  {
    if k > 0 { WordRunIs(s[1..], most - 1, k - 1); }
  }

  lemma Joined<T>(a: seq<T>, b: seq<T>)
    ensures (a + b)[..|a|] == a && (a + b)[|a|..] == b
  {}

  lemma SplitAt<T>(s: seq<T>, k: nat)
    requires k <= |s|
    ensures s == s[..k] + s[k..]
  {}

  lemma PartsBegin(g: string, d: string, rest: string)
    requires Parts("", g, d, rest)
    ensures var u := d + rest; var t := g + u;
            && t != [] && !IsSpace(t[0]) && |g| == (if IsSign(t[0]) then 1 else 0)
            && (forall i :: 0 <= i < |d| ==> IsDigit(u[i])) && (|d| == 6 - |g| || |d| == |u| || !IsDigit(u[|d|]))
  {}

  /** What is put together from parts is read as those. */
  lemma ReadParts(w: string, g: string, d: string, rest: string)
    requires Parts(w, g, d, rest)
    ensures ReadNumber(w + (g + (d + rest))) == Some(Read(Signed(g, d), rest))
  {
    PartsBegin(g, d, rest);
    SkipSpaceOver(w, g + (d + rest));
    Joined(g, d + rest);
    Joined(d, rest);
    DigitRunIs(d + rest, 6 - |g|, |d|);
    hide SkipSpace, DigitRun, Signed, Decimal, IsSpace, IsSign;
  }

  lemma SignPart(t: string)
    ensures var n := if t != [] && IsSign(t[0]) then 1 else 0;
            |t[..n]| == n && (t[..n] != [] ==> IsSign(t[..n][0]))
  {}

  lemma DigitPart(u: string, most: nat)
    ensures var k := DigitRun(u, most);
            AllDigits(u[..k]) && |u[..k]| == k && (k == most || u[k..] == [] || !IsDigit(u[k..][0]))
  {}

  lemma PartsHold(w: string, g: string, d: string, rest: string)
    requires AllSpace(w) && |g| <= 1 && (g != [] ==> IsSign(g[0])) && AllDigits(d) && 0 < |d| <= 6 - |g|
    requires |d| == 6 - |g| || rest == [] || !IsDigit(rest[0])
    ensures Parts(w, g, d, rest)
  {}

  /** And whatever can be read is made of parts. */
  lemma PartsRead(s: string) returns (w: string, g: string, d: string)
    requires ReadNumber(s).Some?
    ensures var rest := ReadNumber(s).value.rest;
            Parts(w, g, d, rest) && s == w + (g + (d + rest))
  {
    hide SkipSpace, DigitRun, Signed, Decimal, IsSpace, AllSpace, AllDigits, IsSign, IsDigit, Parts;
    SpaceSkipped(s);
    var t := SkipSpace(s);
    var n := if t != [] && IsSign(t[0]) then 1 else 0;
    var u := t[n..];
    var k := DigitRun(u, 6 - n);
    SignPart(t);
    DigitPart(u, 6 - n);
    w, g, d := s[..|s| - |t|], t[..n], u[..k];
    SplitAt(s, |s| - |t|);
    SplitAt(t, n);
    SplitAt(u, k);
    PartsHold(w, g, d, u[k..]);
  }

  /** A word without white space in it that is read up to its end. */
  lemma ReadWhole(s: string, rest: string)
    requires s != [] && NoSpace(s) && |s| < 15 && (rest == [] || IsSpace(rest[0]))
    ensures ReadWord(s + rest) == s
  {
    var t := s + rest;
    assert t[0] == s[0] && forall i :: 0 <= i < |s| ==> t[i] == s[i];
    assert rest != [] ==> t[|s|] == rest[0];
    WordRunIs(t, 15, |s|);
    assert t[..|s|] == s;
  }

  /** A directory scan recognises exactly the archives with a number of six digits, and reads that number. */
  lemma RecognisedExactly(name: Name)
    ensures Scanned(FileName(name)) == if name.Archive? && name.n < PACK_LIMIT then Some(name.n) else None
  {
    var d, suffix := Padded(name.n), Suffix(name);
    AfterPrefix(name);
    ReadFileName(name);
    PaddedLength(name.n);
    DecimalOfPadded(name.n);
    PlainSuffix(name);
    assert PREFIX <= FileName(name);
    hide Padded, Decimal, ReadNumber, ReadWord, Suffix;
    if |d| == 6 {
      assert d[..6] == d && d[6..] + suffix == suffix;
      ReadWhole(suffix, "");
      assert suffix + "" == suffix;
    } else {
      LongNumber(d[6..] + suffix);
    }
  }

  lemma ReadFileName(name: Name)
    ensures AllDigits(Padded(name.n)[..6])
    ensures ReadNumber(Padded(name.n) + Suffix(name))
            == Some(Read(Decimal(Padded(name.n)[..6]), Padded(name.n)[6..] + Suffix(name)))
  {
    hide Padded, Suffix, ReadNumber;
    var d, suffix := Padded(name.n), Suffix(name);
    ReadParts("", "", d[..6], d[6..] + suffix);
    assert d + suffix == "" + ("" + (d[..6] + (d[6..] + suffix)));
  }

  lemma PlainSuffix(name: Name)
    ensures NoSpace(Suffix(name)) && |Suffix(name)| < 15 && (Suffix(name) == ARCHIVE_SUFFIX ==> name.Archive?)
  {
    assert |".tar.zst"| == 8 && |".json"| == 5 && |".tar.zst.part"| == 13 && |".json.part"| == 10;
  }

  /** A seventh digit begins the next word. */
  lemma LongNumber(s: string)
    requires s != [] && IsDigit(s[0])
    ensures ReadWord(s) != ARCHIVE_SUFFIX
  {
    assert SkipSpace(s) == s;
    assert ReadWord(s) != [] ==> ReadWord(s)[0] == s[0];
  }

  lemma DigitsDiffer(a: string, b: string, x: string, y: string)
    requires AllDigits(b) && x != [] && !IsDigit(x[0])
    ensures |a| < |b| ==> a + x != b + y
  {
    if |a| < |b| { assert (a + x)[|a|] == x[0] && (b + y)[|a|] == b[|a|]; }
  }

  lemma DigitsApart(a: string, b: string, x: string, y: string)
    requires AllDigits(a) && AllDigits(b)
    requires x != [] && y != [] && !IsDigit(x[0]) && !IsDigit(y[0]) && a + x == b + y
    ensures a == b && x == y
  {
    DigitsDiffer(a, b, x, y);
    DigitsDiffer(b, a, y, x);
    assert (a + x)[..|a|] == a && (b + y)[..|b|] == b;
    assert (a + x)[|a|..] == x && (b + y)[|b|..] == y;
  }

  lemma NameOf(a: Name, b: Name)
    requires a.n == b.n && Suffix(a) == Suffix(b)
    ensures a == b
  {
    assert |".tar.zst"| == 8 && |".json"| == 5 && |".tar.zst.part"| == 13 && |".json.part"| == 10;
  }

  lemma AfterPrefix(name: Name)
    ensures FileName(name)[|PREFIX|..] == Padded(name.n) + Suffix(name)
  {
    hide Padded, Suffix;
  }

  /** No two packs, and no two files of a pack, share a name. */
  lemma FileNamesApart(a: Name, b: Name)
    requires FileName(a) == FileName(b)
    ensures a == b
  {
    hide *;
    AfterPrefix(a);
    AfterPrefix(b);
    NoDigit(a);
    NoDigit(b);
    DigitsApart(Padded(a.n), Padded(b.n), Suffix(a), Suffix(b));
    DecimalOfPadded(a.n);
    DecimalOfPadded(b.n);
    NameOf(a, b);
  }

  lemma NoDigit(name: Name)
    ensures !IsDigit(Suffix(name)[0])
  {}

  // ---------------------------------------------------------------- the two scans

  /** A word read from something without white space in it, if short, is all of it. */
  lemma ReadAll(s: string)
    requires NoSpace(s)
    ensures ReadWord(s) == ARCHIVE_SUFFIX <==> s == ARCHIVE_SUFFIX
  {
    assert SkipSpace(s) == s;
    WordRunIs(s, 15, if |s| < 15 then |s| else 15);
    if |s| < 15 { assert s[..|s|] == s; }
  }

  lemma StemOf(x: string)
    ensures var s := PREFIX + x + ARCHIVE_SUFFIX; var z := |ARCHIVE_SUFFIX|;
            && |s| == 5 + |x| + z && z == 8 && PREFIX <= s && s[|PREFIX|..] == x + ARCHIVE_SUFFIX
            && s[|s| - z..] == ARCHIVE_SUFFIX && s[..|s| - z] == PREFIX + x
            && PREFIX <= PREFIX + x && (PREFIX + x)[|PREFIX|..] == x
  {}

  lemma Regrouped(w: string, g: string, d: string, rest: string)
    ensures w + (g + (d + "")) + rest == w + (g + (d + rest))
  {
    assert d + "" == d && (w + (g + d)) + rest == w + ((g + d) + rest) && (g + d) + rest == g + (d + rest);
  }

  /** What is read in front of the suffix does not depend on whether it is there. */
  lemma SuffixApart(x: string)
    ensures (ReadNumber(x).Some? && ReadNumber(x).value.rest == "")
            <==> (ReadNumber(x + ARCHIVE_SUFFIX).Some? && ReadNumber(x + ARCHIVE_SUFFIX).value.rest == ARCHIVE_SUFFIX)
  {
    hide ReadNumber;
    if ReadNumber(x).Some? && ReadNumber(x).value.rest == "" {
      var w, g, d := PartsRead(x);
      Regrouped(w, g, d, ARCHIVE_SUFFIX);
      ReadParts(w, g, d, ARCHIVE_SUFFIX);
    }
    if ReadNumber(x + ARCHIVE_SUFFIX).Some? && ReadNumber(x + ARCHIVE_SUFFIX).value.rest == ARCHIVE_SUFFIX {
      var w, g, d := PartsRead(x + ARCHIVE_SUFFIX);
      Regrouped(w, g, d, ARCHIVE_SUFFIX);
      Joined(x, ARCHIVE_SUFFIX);
      Joined(w + (g + (d + "")), ARCHIVE_SUFFIX);
      assert x == w + (g + (d + ""));
      ReadParts(w, g, d, "");
    }
  }

  lemma RecoveryStem(s: string) returns (x: string)
    requires RecoveryScans(s)
    ensures s == PREFIX + x + ARCHIVE_SUFFIX
  {
    hide ReadNumber;
    var stem := s[..|s| - |ARCHIVE_SUFFIX|];
    x := stem[|PREFIX|..];
    assert stem == PREFIX + x;
    assert s == stem + s[|s| - |ARCHIVE_SUFFIX|..];
  }

  lemma ScannedStem(s: string) returns (x: string)
    requires Scanned(s).Some? && NothingApart(s)
    ensures s == PREFIX + x + ARCHIVE_SUFFIX
  {
    hide ReadNumber, ReadWord;
    var rest := ReadNumber(s[|PREFIX|..]).value.rest;
    ReadAll(rest);
    var w, g, d := PartsRead(s[|PREFIX|..]);
    x := w + (g + (d + ""));
    Regrouped(w, g, d, rest);
    assert s == PREFIX + s[|PREFIX|..];
    assert PREFIX + (x + rest) == PREFIX + x + rest;
  }

  lemma StemScans(x: string)
    ensures var s := PREFIX + x + ARCHIVE_SUFFIX;
            RecoveryScans(s) <==> Scanned(s).Some? && NothingApart(s) && |s| < 72
  {
    StemOf(x);
    SuffixApart(x);
    hide ReadNumber, ReadWord;
    var r := ReadNumber(x + ARCHIVE_SUFFIX);
    assert ARCHIVE_SUFFIX[0] == '.';
    assert NoSpace(ARCHIVE_SUFFIX);
    if r.Some? && NoSpace(r.value.rest) { ReadAll(r.value.rest); }
    if r.Some? && r.value.rest == ARCHIVE_SUFFIX { ReadAll(r.value.rest); }
  }

  /** Recovery recognises exactly the names that the numbering of packs does, if they are shorter than 72 bytes and
      have no white space behind the number. */
  lemma ScansAgreeExactly(s: string)
    ensures RecoveryScans(s) <==> Scanned(s).Some? && NothingApart(s) && |s| < 72
  {
    hide Scanned, RecoveryScans, NothingApart;
    if RecoveryScans(s) {
      var x := RecoveryStem(s);
      StemScans(x);
    }
    if Scanned(s).Some? && NothingApart(s) {
      var x := ScannedStem(s);
      StemScans(x);
    }
  }

  /** Of the names the program writes they recognise the same. */
  lemma OwnNamesAgree(name: Name)
    ensures RecoveryScans(FileName(name)) <==> name.Archive? && name.n < PACK_LIMIT
  {
    hide Scanned, RecoveryScans, FileName;
    RecognisedExactly(name);
    ScansAgreeExactly(FileName(name));
    if name.Archive? && name.n < PACK_LIMIT { OwnNameShort(name); }
  }

  lemma OwnNameShort(name: Name)
    requires name.Archive? && name.n < PACK_LIMIT
    ensures NothingApart(FileName(name)) && |FileName(name)| < 72
  {
    var d, suffix := Padded(name.n), Suffix(name);
    AfterPrefix(name);
    ReadFileName(name);
    PaddedLength(name.n);
    PlainSuffix(name);
    assert PREFIX <= FileName(name);
    hide Padded, Decimal, ReadNumber;
    assert d[6..] + suffix == suffix;
  }

  lemma NumberNine(w: string, rest: string)
    requires AllSpace(w) && (rest == [] || !IsDigit(rest[0]))
    ensures ReadNumber(w + "000009" + rest) == Some(Read(9, rest))
  {
    Nine();
    hide Decimal, ReadNumber;
    ReadParts(w, "", "000009", rest);
    assert w + "000009" + rest == w + ("" + ("000009" + rest));
  }

  /** White space behind the number makes them differ, as long as the next word is the suffix. */
  lemma SpacedDiffers(rest: string)
    requires ReadWord(rest) == ARCHIVE_SUFFIX && !NoSpace(rest)
    ensures Scanned(PREFIX + ("000009" + rest)) == Some(9) && !RecoveryScans(PREFIX + ("000009" + rest))
  {
    assert rest == [] || !IsDigit(rest[0]) by {
      if rest != [] && IsDigit(rest[0]) { LongNumber(rest); }
    }
    var x := "000009" + rest;
    NumberNine("", rest);
    assert "" + "000009" + rest == x;
    ScansAgreeExactly(PREFIX + x);
    hide ReadNumber, RecoveryScans, ReadWord, NoSpace;
    assert (PREFIX + x)[|PREFIX|..] == x && PREFIX <= PREFIX + x;
  }

  /** So they differ on a copy's name, and on one with a space in front of the suffix. */
  lemma ScansDiffer()
    ensures Scanned("pack-000009.tar.zst (copy)") == Some(9) && !RecoveryScans("pack-000009.tar.zst (copy)")
    ensures Scanned("pack-000009 .tar.zst") == Some(9) && !RecoveryScans("pack-000009 .tar.zst")
  {
    hide Scanned, RecoveryScans, ReadWord;
    WordsSpaced();
    SpacedDiffers(".tar.zst (copy)");
    SpacedDiffers(" .tar.zst");
    assert PREFIX + ("000009" + ".tar.zst (copy)") == "pack-000009.tar.zst (copy)";
    assert PREFIX + ("000009" + " .tar.zst") == "pack-000009 .tar.zst";
  }

  lemma WordsSpaced()
    ensures ReadWord(".tar.zst (copy)") == ARCHIVE_SUFFIX && !NoSpace(".tar.zst (copy)")
    ensures ReadWord(" .tar.zst") == ARCHIVE_SUFFIX && !NoSpace(" .tar.zst")
  {
    hide ReadWord;
    ReadWhole(ARCHIVE_SUFFIX, " (copy)");
    assert ARCHIVE_SUFFIX + " (copy)" == ".tar.zst (copy)";
    assert ".tar.zst (copy)"[8] == ' ';
    ReadAll(ARCHIVE_SUFFIX);
    SkipOne(ARCHIVE_SUFFIX);
    assert " " + ARCHIVE_SUFFIX == " .tar.zst";
    assert " .tar.zst"[0] == ' ';
  }

  /** A space in front of a word makes no difference. */
  lemma SkipOne(s: string)
    ensures ReadWord(" " + s) == ReadWord(s)
  {
    assert (" " + s)[1..] == s;
  }

  lemma Nine()
    ensures AllDigits("000009") && Decimal("000009") == 9
  {
    DecimalZeros(5, "9");
    assert Zeros(5) + "9" == "000009";
    assert "9"[..0] == "";
  }

  lemma ScannedNine(w: string)
    requires AllSpace(w)
    ensures Scanned(PREFIX + (w + "000009") + ARCHIVE_SUFFIX) == Some(9)
  {
    hide ReadNumber, ReadWord, AllSpace;
    StemOf(w + "000009");
    assert ARCHIVE_SUFFIX[0] == '.';
    NumberNine(w, ARCHIVE_SUFFIX);
    ReadAll(ARCHIVE_SUFFIX);
  }

  /** A name too long for recovery's buffer, though the numbering reads it. */
  lemma LongNameDiffers(w: string)
    requires AllSpace(w) && |w| >= 53
    ensures Scanned(PREFIX + (w + "000009") + ARCHIVE_SUFFIX) == Some(9)
    ensures !RecoveryScans(PREFIX + (w + "000009") + ARCHIVE_SUFFIX)
  {
    hide Scanned, ReadNumber, NothingApart, AllSpace;
    ScannedNine(w);
    StemOf(w + "000009");
    assert |"000009"| == 6;
  }
}
