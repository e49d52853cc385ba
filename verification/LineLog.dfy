/** A byte log of newline-terminated lines, and how a torn tail is cut off (`repair_index_tail`). */
module LineLog {
  import opened Types

  const CHUNK := 4096

  predicate Terminated(log: Bytes) { log == [] || log[|log| - 1] == NEWLINE }

  /** The length of the longest prefix that is empty or ends in a newline. */
  function GoodLength(log: Bytes): (g: nat)
    ensures g <= |log| && Terminated(log[..g])
    ensures NEWLINE !in log[g..]
  {
    if |log| == 0 || log[|log| - 1] == NEWLINE then |log|
    else
      var g := GoodLength(log[..|log| - 1]);
      assert log[..|log| - 1][..g] == log[..g] && log[g..] == log[..|log| - 1][g..] + [log[|log| - 1]];
      g
  }

  function Repaired(log: Bytes): (r: Bytes) { log[..GoodLength(log)] }

  /** The complete lines, without their newlines; a torn last line is not one. */
  function Lines(log: Bytes): (lines: seq<Bytes>)
  {
    var g := GoodLength(log);
    if g == 0 then []
    else
      var h := GoodLength(log[..g - 1]);
      Lines(log[..h]) + [log[h..g - 1]]
  }

  /** The lines a reader that does not insist on newlines sees: a torn last line too. */
  function ReadLines(log: Bytes): seq<Bytes> {
    var g := GoodLength(log);
    if g < |log| then Lines(log) + [log[g..]] else Lines(log)
  }

  /** The bytes that lines are written as. */
  function Text(lines: seq<Bytes>): (log: Bytes)
    ensures Terminated(log)
  {
    if lines == [] then [] else Text(lines[..|lines| - 1]) + lines[|lines| - 1] + [NEWLINE]
  }

  ghost predicate Plain(lines: seq<Bytes>) { forall i :: 0 <= i < |lines| ==> NEWLINE !in lines[i] }

  /** Cuts the log back to its last complete line, scanning backwards chunk by chunk. */
  method RepairIndexTail(log: Bytes) returns (r: Bytes)
    ensures r == Repaired(log)
  {
    if |log| == 0 || log[|log| - 1] == NEWLINE {
      assert log[..|log|] == log;
      return log;
    }
    var good, pos := 0, |log|;
    while pos > 0 && good == 0
      invariant 0 <= pos <= |log| && 0 <= good <= |log|
      invariant good == 0 ==> NEWLINE !in log[pos..]
      invariant good > 0 ==> log[good - 1] == NEWLINE && NEWLINE !in log[good..]
      decreases pos
    {
      var want := if pos > CHUNK then CHUNK else pos;
      var start := pos - want;
      good := LastNewline(log, start, pos);
      pos := start;
    }
    GoodLengthUnique(log, good);
    return log[..good];
  }

  /** The scan of one chunk: the byte after the last newline in `[start, end)`, or 0. */
  method LastNewline(log: Bytes, start: nat, end: nat) returns (good: nat)
    requires start < end <= |log| && NEWLINE !in log[end..]
    ensures good == 0 ==> NEWLINE !in log[start..]
    ensures good > 0 ==> good <= |log| && log[good - 1] == NEWLINE && NEWLINE !in log[good..]
  {
    var i := end;
    while i > start
      invariant start <= i <= end && NEWLINE !in log[i..]
    {
      i := i - 1;
      if log[i] == NEWLINE { return i + 1; }
      assert log[i..] == [log[i]] + log[i + 1..];
    }
    return 0;
  }

  // ---------------------------------------------------------------- what repair means

  lemma {:induction false} GoodLengthUnique(log: Bytes, g: nat)
    requires g <= |log| && Terminated(log[..g]) && NEWLINE !in log[g..]
    ensures GoodLength(log) == g
  {
    if g == |log| {
      assert log[..g] == log;
    } else {
      var n := |log| - 1;
      assert log[n] in log[g..] by { assert log[n] == log[g..][n - g]; }
      assert log[..n][..g] == log[..g];
      forall b | b in log[..n][g..] ensures b in log[g..] { assert log[g..] == log[..n][g..] + [log[n]]; }
      GoodLengthUnique(log[..n], g);
    }
  }

  lemma LongerNotTerminated(log: Bytes, n: nat)
    requires n <= |log| && Terminated(log[..n])
    ensures n <= GoodLength(log)
  {
    var g := GoodLength(log);
    assert forall i :: g <= i < |log| ==> log[i] in log[g..];
  }

  /** Repair keeps the longest prefix that ends a line: none longer does, and repairing again changes nothing. */
  lemma RepairedIsLongest(log: Bytes, p: Bytes)
    requires p <= log && Terminated(p)
    ensures p <= Repaired(log)
    ensures Repaired(Repaired(log)) == Repaired(log)
  {
    var g := GoodLength(log);
    assert |p| <= g by { LongerNotTerminated(log, |p|); }
    GoodLengthUnique(Repaired(log), g);
  }

  lemma GoodLengthAppend(base: Bytes, tail: Bytes)
    requires Terminated(base)
    ensures GoodLength(base + tail) == |base| + GoodLength(tail)
  {
    var g := GoodLength(tail);
    var log := base + tail;
    assert log[..|base| + g] == base + tail[..g];
    assert log[|base| + g..] == tail[g..];
    GoodLengthUnique(log, |base| + g);
  }

  /** Behind a terminated log only the appended bytes matter. */
  lemma RepairedAppend(base: Bytes, tail: Bytes)
    requires Terminated(base)
    ensures Repaired(base + tail) == base + Repaired(tail)
  {
    GoodLengthAppend(base, tail);
  }

  /** Only the part up to the last newline matters to the lines. */
  lemma SameLines(a: Bytes, b: Bytes, g: nat)
    requires g <= |a| && g <= |b| && a[..g] == b[..g] && GoodLength(a) == g == GoodLength(b)
    ensures Lines(a) == Lines(b)
  {
    if g > 0 {
      assert a[..g - 1] == a[..g][..g - 1] == b[..g][..g - 1] == b[..g - 1];
      var h := GoodLength(a[..g - 1]);
      assert a[..h] == a[..g][..h] == b[..g][..h] == b[..h];
      assert a[h..g - 1] == a[..g][h..g - 1] == b[..g][h..g - 1] == b[h..g - 1];
    }
  }

  lemma LinesRepaired(log: Bytes)
    ensures Lines(Repaired(log)) == Lines(log)
  {
    var g := GoodLength(log);
    GoodLengthUnique(Repaired(log), g);
    hide Lines, GoodLength;
    assert Repaired(log)[..g] == log[..g];
    SameLines(Repaired(log), log, g);
  }

  /** One more line at the end. */
  lemma LinesAppendLine(base: Bytes, line: Bytes)
    requires Terminated(base) && NEWLINE !in line
    ensures Terminated(base + line + [NEWLINE])
    ensures Lines(base + line + [NEWLINE]) == Lines(base) + [line]
  {
    var log := base + line + [NEWLINE];
    var g := |log|;
    GoodLengthUnique(log, g);
    assert log[..g - 1] == base + line;
    assert (base + line)[..|base|] == base && (base + line)[|base|..] == line;
    GoodLengthUnique(base + line, |base|);
    assert log[..|base|] == base && log[|base|..g - 1] == line;
  }

  lemma Associative<T>(a: seq<T>, b: seq<T>, c: seq<T>)
    ensures a + (b + c) == (a + b) + c
  {}

  lemma LastApart<T>(a: seq<T>, s: seq<T>)
    requires s != []
    ensures a + s == (a + s[..|s| - 1]) + [s[|s| - 1]]
  {}

  lemma TextLast(base: Bytes, lines: seq<Bytes>)
    requires lines != []
    ensures var n := |lines| - 1;
            base + Text(lines) == (base + Text(lines[..n])) + lines[n] + [NEWLINE]
  {
    var n := |lines| - 1;
    var rest := Text(lines[..n]);
    assert Text(lines) == (rest + lines[n]) + [NEWLINE];
    hide Text;
    Associative(base, rest + lines[n], [NEWLINE]);
    Associative(base, rest, lines[n]);
  }

  /** Lines come back from their text, behind whatever complete lines the log already had. */
  lemma {:induction false} LinesOfText(base: Bytes, lines: seq<Bytes>)
    requires Terminated(base) && Plain(lines)
    ensures Terminated(base + Text(lines)) && Lines(base + Text(lines)) == Lines(base) + lines
  {
    if lines == [] {
      assert base + Text(lines) == base && Lines(base) + [] == Lines(base);
    } else {
      var n := |lines| - 1;
      hide Lines, Text, Terminated;
      LinesOfText(base, lines[..n]);
      TextLast(base, lines);
      LinesAppendLine(base + Text(lines[..n]), lines[n]);
      LastApart(Lines(base), lines);
    }
  }

  /** How many whole lines a byte prefix of the text holds. */
  function WholeLines(lines: seq<Bytes>, p: nat): (k: nat)
    requires p <= |Text(lines)|
    ensures k <= |lines|
  {
    if lines == [] then 0
    else if p == |Text(lines)| then |lines|
    else if p <= |Text(lines[..|lines| - 1])| then WholeLines(lines[..|lines| - 1], p)
    else |lines| - 1
  }

  /** A text up to the end of its first `k` lines holds those. */
  lemma {:induction false} WholeLinesAt(lines: seq<Bytes>, k: nat)
    requires k <= |lines|
    ensures |Text(lines[..k])| <= |Text(lines)| && WholeLines(lines, |Text(lines[..k])|) == k
  {
    var n := |lines| - 1;
    if k == |lines| {
      assert lines[..k] == lines;
    } else {
      assert lines[..n][..k] == lines[..k];
      WholeLinesAt(lines[..n], k);
    }
  }

  /** Any byte prefix of lines being written holds a prefix of the lines, and repair leaves exactly that. */
  lemma {:induction false} TornAppend(base: Bytes, lines: seq<Bytes>, p: nat)
    requires Terminated(base) && Plain(lines) && p <= |Text(lines)|
    ensures var k := WholeLines(lines, p);
            && Repaired(base + Text(lines)[..p]) == base + Text(lines[..k])
            && Lines(base + Text(lines)[..p]) == Lines(base) + lines[..k]
  {
    if lines == [] || p == |Text(lines)| {
      assert Text(lines)[..p] == Text(lines) && lines[..|lines|] == lines;
      LinesOfText(base, lines);
      GoodLengthUnique(base + Text(lines), |base + Text(lines)|);
    } else if p <= |Text(lines[..|lines| - 1])| {
      TornEarlier(base, lines, p);
      TornAppend(base, lines[..|lines| - 1], p);
    } else {
      TornInLast(base, lines, p);
    }
  }

  lemma TornEarlier(base: Bytes, lines: seq<Bytes>, p: nat)
    requires lines != [] && p <= |Text(lines[..|lines| - 1])|
    ensures p <= |Text(lines)| && base + Text(lines)[..p] == base + Text(lines[..|lines| - 1])[..p]
    ensures forall k :: 0 <= k < |lines| ==> lines[..|lines| - 1][..k] == lines[..k]
  {
    assert Text(lines)[..p] == Text(lines[..|lines| - 1])[..p];
  }

  lemma TornInLast(base: Bytes, lines: seq<Bytes>, p: nat)
    requires lines != [] && Terminated(base) && Plain(lines)
    requires |Text(lines[..|lines| - 1])| < p < |Text(lines)|
    ensures var n := |lines| - 1;
            && Repaired(base + Text(lines)[..p]) == base + Text(lines[..n])
            && Lines(base + Text(lines)[..p]) == Lines(base) + lines[..n]
  {
    var n := |lines| - 1;
    var done := Text(lines[..n]);
    var torn := lines[n][..p - |done|];
    assert Text(lines)[..p] == done + torn;
    assert base + (done + torn) == (base + done) + torn;
    LinesOfText(base, lines[..n]);
    NoNewlineInPrefix(lines[n], p - |done|);
    hide Lines, Text, Repaired;
    TornTail(base + done, torn);
  }

  /** Bytes without a newline behind a terminated log are all that repair removes. */
  lemma TornTail(base: Bytes, torn: Bytes)
    requires Terminated(base) && NEWLINE !in torn
    ensures Repaired(base + torn) == base && Lines(base + torn) == Lines(base)
  {
    GoodLengthUnique(torn, 0);
    RepairedAppend(base, torn);
    assert base + [] == base;
    LinesRepaired(base + torn);
  }

  lemma TornReadLines(base: Bytes, torn: Bytes)
    requires Terminated(base) && torn != [] && NEWLINE !in torn
    ensures ReadLines(base + torn) == Lines(base) + [torn]
  {
    GoodLengthUnique(torn, 0);
    GoodLengthAppend(base, torn);
    TornTail(base, torn);
    assert (base + torn)[|base|..] == torn;
  }

  lemma NoNewlineInPrefix(line: Bytes, i: nat)
    requires NEWLINE !in line && i <= |line|
    ensures NEWLINE !in line[..i]
  {}

  /** A torn last line counted as a whole one. */
  function Whole(log: Bytes): (w: Bytes)
    ensures Terminated(w) && (Terminated(log) ==> w == log)
  {
    if Terminated(log) then log else log + [NEWLINE]
  }

  /** To a reader that does not insist on newlines it makes no difference. */
  lemma ReadLinesWhole(log: Bytes)
    ensures ReadLines(Whole(log)) == ReadLines(log)
  {
    if !Terminated(log) {
      ClosedLines(log);
      ReadLinesClean(Whole(log));
    }
  }

  lemma TornApart(log: Bytes)
    requires !Terminated(log)
    ensures var g := GoodLength(log);
            g < |log| && Whole(log) == log[..g] + log[g..] + [NEWLINE] && log[..g] == Repaired(log)
  {
    hide GoodLength;
    assert log[..|log|] == log;
    assert log[..GoodLength(log)] + log[GoodLength(log)..] == log;
  }

  /** Closed, a torn last line is one line more. */
  lemma ClosedLines(log: Bytes)
    requires !Terminated(log)
    ensures var g := GoodLength(log); g < |log| && Lines(Whole(log)) == Lines(log) + [log[g..]]
  {
    hide *;
    var g := GoodLength(log);
    TornApart(log);
    LinesAppendLine(log[..g], log[g..]);
    LinesRepaired(log);
  }

  lemma ReadLinesClean(log: Bytes)
    requires Terminated(log)
    ensures ReadLines(log) == Lines(log)
  {
    GoodLengthUnique(log, |log|);
  }
}
