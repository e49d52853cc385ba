/** Path-ordered next-fit: `tp_bin_assign_next_fit`. */
module NextFit {
  import opened BinPacking
  import opened Int64

  /** The assignment so far, the number of bins opened, and the load of the open bin, if any. */
  datatype State = State(asg: seq<int>, bins: nat, hasCurrent: bool, used: int)

  function Step(s: State, cost: int, target: int): State {
    if cost > target then State(s.asg + [s.bins], s.bins + 1, false, 0)
    else if !s.hasCurrent || s.used + cost > target then State(s.asg + [s.bins], s.bins + 1, true, cost)
    else State(s.asg + [s.bins - 1], s.bins, true, s.used + cost)
  }

  function Run(costs: seq<int>, target: int): (s: State)
  {
    if |costs| == 0 then State([], 0, false, 0)
    else Step(Run(costs[..|costs| - 1], target), costs[|costs| - 1], target)
  }

  /** The load computed for the next item never leaves the range of `int64_t`. */
  predicate NoOverflow(costs: seq<int>, target: int) {
    |costs| == 0
    || (var n := |costs| - 1;
        var s := Run(costs[..n], target);
        && NoOverflow(costs[..n], target)
        && (costs[n] <= target && s.hasCurrent ==> IsInt64(s.used + costs[n])))
  }

  /** The same rule with the load kept in 64 bits, wrapping round. */
  function Step64(s: State, cost: int, target: int): State {
    if cost > target then State(s.asg + [s.bins], s.bins + 1, false, 0)
    else if !s.hasCurrent || Add64(s.used, cost) > target then State(s.asg + [s.bins], s.bins + 1, true, cost)
    else State(s.asg + [s.bins - 1], s.bins, true, Add64(s.used, cost))
  }

  function Run64(costs: seq<int>, target: int): (s: State)
    ensures |s.asg| == |costs|
  {
    if |costs| == 0 then State([], 0, false, 0)
    else Step64(Run64(costs[..|costs| - 1], target), costs[|costs| - 1], target)
  }

  lemma {:induction false} ExactWithoutOverflow(costs: seq<int>, target: int)
    requires NoOverflow(costs, target)
    ensures Run64(costs, target) == Run(costs, target)
  {
    if |costs| > 0 { ExactWithoutOverflow(costs[..|costs| - 1], target); }
  }

  /** Assigns every item of `costs` to a bin, writing `binOut[off..]`; -1 for a target below 1. */
  method BinAssignNextFit(costs: seq<int>, target: int, binOut: array<int>, off: nat) returns (k: int)
    requires off + |costs| <= binOut.Length
    modifies binOut
    ensures target <= 0 ==> k == -1 && binOut[..] == old(binOut[..])
    ensures target > 0 ==> k == Run64(costs, target).bins && binOut[off..off + |costs|] == Run64(costs, target).asg
    ensures target > 0 && NoOverflow(costs, target) ==>
              k == Run(costs, target).bins && binOut[off..off + |costs|] == Run(costs, target).asg
    ensures binOut[..off] == old(binOut[..off])
    ensures binOut[off + |costs|..] == old(binOut[off + |costs|..])
  {
    if NoOverflow(costs, target) { ExactWithoutOverflow(costs, target); }
    if target <= 0 { return -1; }
    if |costs| == 0 { return 0; }
    hide NoOverflow, Run;
    var binCount, haveCurrent, currentUsed := 0, false, 0;
    for i := 0 to |costs|
      invariant Run64(costs[..i], target) == State(binOut[off..off + i], binCount, haveCurrent, currentUsed)
      invariant binOut[..off] == old(binOut[..off])
      invariant binOut[off + |costs|..] == old(binOut[off + |costs|..])
    {
      assert costs[..i + 1][..i] == costs[..i];
      ghost var before := binOut[off..off + i];
      var cost := costs[i];
      if cost > target {
        binOut[off + i] := binCount;
        binCount := binCount + 1;
        haveCurrent := false;
        currentUsed := 0;
      } else if !haveCurrent || Add64(currentUsed, cost) > target {
        binOut[off + i] := binCount;
        binCount := binCount + 1;
        haveCurrent := true;
        currentUsed := cost;
      } else {
        binOut[off + i] := binCount - 1;
        currentUsed := Add64(currentUsed, cost);
      }
      assert binOut[off..off + i + 1] == before + [binOut[off + i]];
    }
    assert costs[..|costs|] == costs;
    return binCount;
  }

  // ---------------------------------------------------------------- properties

  ghost predicate Numbered(asg: seq<int>, bins: nat) {
    && AllUsed(asg, bins)
    && (forall i :: 0 <= i < |asg| ==> 0 <= asg[i] < bins)
    && (forall i, j :: 0 <= i < j < |asg| ==> asg[i] <= asg[j])
  }

  ghost predicate AllLegal(costs: seq<int>, target: int, asg: seq<int>, bins: nat)
    requires |asg| == |costs|
  {
    forall b :: 0 <= b < bins ==> LegalBin(costs, target, asg, b)
  }

  /** Any two neighbouring bins together exceed the target. */
  ghost predicate PairsExceed(c: seq<int>, target: int, asg: seq<int>, bins: nat)
    requires |asg| == |c|
  {
    forall b :: 0 < b < bins ==> BinTotal(c, asg, b - 1) + BinTotal(c, asg, b) > target
  }

  /** The open bin's load is what its items cost; with no bin open, the last one is full. */
  ghost predicate LoadKnown(costs: seq<int>, target: int, s: State)
    requires |s.asg| == |costs|
  {
    var last := BinTotal(Capped(costs, target), s.asg, s.bins - 1);
    if s.hasCurrent then s.bins > 0 && 1 <= s.used <= target && last == s.used == BinTotal(costs, s.asg, s.bins - 1)
    else s.bins > 0 ==> last == target
  }

  /** What holds of the exact rule after any number of items: bins are numbered in opening order and legal. */
  ghost predicate Shape(costs: seq<int>, target: int, s: State) {
    && |s.asg| == |costs|
    && Numbered(s.asg, s.bins)
    && LoadKnown(costs, target, s)
    && AllLegal(costs, target, s.asg, s.bins)
  }

  /** How one more item of cost `x`, put into bin `b`, changes the totals of any bin `o`. */
  lemma StepTotals(costs: seq<int>, asg: seq<int>, x: int, b: int, target: int, o: int)
    requires |costs| == |asg|
    ensures BinTotal(Capped(costs + [x], target), asg + [b], o)
            == BinTotal(Capped(costs, target), asg, o) + (if b == o then (if x > target then target else x) else 0)
    ensures BinTotal(costs + [x], asg + [b], o) == BinTotal(costs, asg, o) + (if b == o then x else 0)
    ensures BinCount(asg + [b], o) == BinCount(asg, o) + (if b == o then 1 else 0)
  {
    var c := Capped(costs, target);
    var y := if x > target then target else x;
    assert Capped(costs + [x], target) == c + [y];
    assert Ones(|asg| + 1) == Ones(|asg|) + [1];
    BinTotalAppend(c, asg, y, b, o);
    BinTotalAppend(costs, asg, x, b, o);
    BinTotalAppend(Ones(|asg|), asg, 1, b, o);
  }

  /** A bin number not yet handed out holds nothing. */
  lemma FreshBinEmpty(costs: seq<int>, target: int, asg: seq<int>, b: int)
    requires |costs| == |asg| && forall i :: 0 <= i < |asg| ==> asg[i] != b
    ensures BinTotal(costs, asg, b) == 0 && BinTotal(Capped(costs, target), asg, b) == 0 && BinCount(asg, b) == 0
  {
    BinTotalEmpty(costs, asg, b);
    BinTotalEmpty(Capped(costs, target), asg, b);
    BinTotalEmpty(Ones(|asg|), asg, b);
  }

  lemma StepKeepsLegal(costs: seq<int>, target: int, s: State, x: int)
    requires target >= 1 && x >= 1 && Shape(costs, target, s)
    ensures AllLegal(costs + [x], target, Step(s, x, target).asg, Step(s, x, target).bins)
  {
    var t := Step(s, x, target);
    FreshBinEmpty(costs, target, s.asg, s.bins);
    forall o | 0 <= o < t.bins ensures LegalBin(costs + [x], target, t.asg, o) {
      StepTotals(costs, s.asg, x, t.asg[|costs|], target, o);
      if o < s.bins { assert LegalBin(costs, target, s.asg, o); }
    }
  }

  lemma NumberedAppend(asg: seq<int>, bins: nat, b: int)
    requires Numbered(asg, bins) && (b == bins || b == bins - 1 >= 0)
    ensures Numbered(asg + [b], if b == bins then bins + 1 else bins)
  {
    var t := asg + [b];
    forall o | 0 <= o < (if b == bins then bins + 1 else bins) ensures o in t {
      if o < bins { assert o in asg; } else { assert t[|asg|] == o; }
    }
  }

  lemma StepKeepsLoad(costs: seq<int>, target: int, s: State, x: int)
    requires target >= 1 && x >= 1 && Shape(costs, target, s)
    ensures LoadKnown(costs + [x], target, Step(s, x, target))
  {
    hide AllLegal, BinTotal, BinCount, Capped;
    var t := Step(s, x, target);
    FreshBinEmpty(costs, target, s.asg, s.bins);
    StepTotals(costs, s.asg, x, t.asg[|costs|], target, t.bins - 1);
  }

  lemma StepKeepsShape(costs: seq<int>, target: int, s: State, x: int)
    requires target >= 1 && x >= 1 && Shape(costs, target, s)
    ensures Shape(costs + [x], target, Step(s, x, target))
  {
    assert s.hasCurrent ==> s.bins > 0;
    hide Numbered, AllLegal, LoadKnown;
    NumberedAppend(s.asg, s.bins, Step(s, x, target).asg[|costs|]);
    StepKeepsLegal(costs, target, s, x);
    StepKeepsLoad(costs, target, s, x);
  }

  lemma {:induction false} RunShape(costs: seq<int>, target: int)
    requires target >= 1 && Positive(costs)
    ensures Shape(costs, target, Run(costs, target))
  {
    if |costs| > 0 {
      var n := |costs| - 1;
      RunShape(costs[..n], target);
      StepKeepsShape(costs[..n], target, Run(costs[..n], target), costs[n]);
      assert costs == costs[..n] + [costs[n]];
    }
  }

  /** Even if the load wraps round, bins are numbered without gaps and items are not reordered. */
  lemma {:induction false} Run64Numbered(costs: seq<int>, target: int)
    ensures var s := Run64(costs, target); Numbered(s.asg, s.bins) && (s.hasCurrent ==> s.bins > 0)
  {
    if |costs| > 0 {
      var n := |costs| - 1;
      var s := Run64(costs[..n], target);
      hide Numbered;
      Run64Numbered(costs[..n], target);
      NumberedAppend(s.asg, s.bins, Step64(s, costs[n], target).asg[n]);
    } else {
      assert Numbered([], 0);
    }
  }

  /** Next-fit bins are legal, numbered without gaps, and never reorder the items. */
  lemma NextFitLegal(costs: seq<int>, target: int)
    requires target >= 1 && Positive(costs)
    ensures var s := Run(costs, target);
            && Legal(costs, target, s.asg, s.bins)
            && AllUsed(s.asg, s.bins)
            && (forall i, j :: 0 <= i < j < |costs| ==> s.asg[i] <= s.asg[j])
  {
    RunShape(costs, target);
  }

  // ---------------------------------------------------------------- how many bins, however large the loads

  /** The open bin's load is exact, or the bin holds more than the target already: a sum that wraps round is of a
      bin that does.  With no bin open, the last one is full. */
  ghost predicate LoadBounded(costs: seq<int>, target: int, s: State)
    requires |s.asg| == |costs|
  {
    var last := BinTotal(Capped(costs, target), s.asg, s.bins - 1);
    if s.hasCurrent then s.bins > 0 && ((1 <= s.used <= target && last == s.used) || last > target)
    else s.bins > 0 ==> last == target
  }

  /** What holds of the rule with 64-bit loads: any two neighbouring bins together exceed the target, also around
      an oversized item. */
  ghost predicate Shape64(costs: seq<int>, target: int, s: State) {
    && |s.asg| == |costs|
    && Numbered(s.asg, s.bins)
    && LoadBounded(costs, target, s)
    && PairsExceed(Capped(costs, target), target, s.asg, s.bins)
  }

  /** A new bin is opened only when the last one and the next item together exceed the target. */
  lemma OpensFull(costs: seq<int>, target: int, s: State, x: int)
    requires 1 <= target <= INT64_MAX && 1 <= x && |s.asg| == |costs| && LoadBounded(costs, target, s) && s.bins > 0
    ensures var last := BinTotal(Capped(costs, target), s.asg, s.bins - 1);
            last >= 1 && (Step64(s, x, target).bins > s.bins ==> last + (if x > target then target else x) > target)
  {
    hide BinTotal, Capped;
  }

  lemma StepKeepsBounded(costs: seq<int>, target: int, s: State, x: int)
    requires 1 <= target <= INT64_MAX && 1 <= x && Shape64(costs, target, s)
    ensures LoadBounded(costs + [x], target, Step64(s, x, target))
  {
    hide PairsExceed, BinTotal, BinCount, Capped;
    var t := Step64(s, x, target);
    FreshBinEmpty(costs, target, s.asg, s.bins);
    StepTotals(costs, s.asg, x, t.asg[|costs|], target, t.bins - 1);
  }

  lemma StepKeepsPairs(costs: seq<int>, target: int, s: State, x: int)
    requires 1 <= target <= INT64_MAX && 1 <= x && Shape64(costs, target, s)
    ensures PairsExceed(Capped(costs + [x], target), target, Step64(s, x, target).asg, Step64(s, x, target).bins)
  {
    var t, d := Step64(s, x, target), Capped(costs + [x], target);
    FreshBinEmpty(costs, target, s.asg, s.bins);
    if s.bins > 0 { OpensFull(costs, target, s, x); }
    hide BinTotal, BinCount, Capped;
    forall o | 0 < o < t.bins ensures BinTotal(d, t.asg, o - 1) + BinTotal(d, t.asg, o) > target {
      StepTotals(costs, s.asg, x, t.asg[|costs|], target, o - 1);
      StepTotals(costs, s.asg, x, t.asg[|costs|], target, o);
    }
  }

  lemma {:induction false} Run64Shape(costs: seq<int>, target: int)
    requires 1 <= target <= INT64_MAX && Positive(costs)
    ensures Shape64(costs, target, Run64(costs, target))
  {
    Run64Numbered(costs, target);
    if |costs| > 0 {
      var n := |costs| - 1;
      Run64Shape(costs[..n], target);
      assert costs == costs[..n] + [costs[n]];
      hide Numbered, LoadBounded, PairsExceed;
      StepKeepsBounded(costs[..n], target, Run64(costs[..n], target), costs[n]);
      StepKeepsPairs(costs[..n], target, Run64(costs[..n], target), costs[n]);
    }
  }

  /** Neighbouring bins each pair up beyond the target: `2 * h` bins outweigh `h` targets. */
  lemma {:induction false} PairedBins(c: seq<int>, asg: seq<int>, k: nat, h: nat, target: int)
    requires |c| == |asg| && 2 * h <= k
    requires forall b :: 0 < b < k ==> BinTotal(c, asg, b - 1) + BinTotal(c, asg, b) > target
    ensures SumBins(c, asg, 2 * h) >= h * (target + 1)
  {
    if h > 0 {
      PairedBins(c, asg, k, h - 1, target);
      assert SumBins(c, asg, 2 * h)
          == SumBins(c, asg, 2 * h - 2) + BinTotal(c, asg, 2 * h - 2) + BinTotal(c, asg, 2 * h - 1);
      assert h * (target + 1) == (h - 1) * (target + 1) + (target + 1);
    }
  }

  /** Next-fit never uses as many as twice the bins of any legal packing, whether or not its load wraps round. */
  lemma NextFitWithinTwice(costs: seq<int>, target: int, packing: seq<int>, m: nat)
    requires 1 <= target <= INT64_MAX && Positive(costs) && |costs| > 0
    requires Legal(costs, target, packing, m)
    ensures Run64(costs, target).bins < 2 * m
  {
    var s := Run64(costs, target);
    var c := Capped(costs, target);
    Run64Shape(costs, target);
    CappedTotalBound(costs, target, packing, m);
    SumBinsIsTotal(c, s.asg, s.bins);
    assert 0 <= packing[0] < m;
    assert m * (target + 1) == m * target + m;
    if 2 * m <= s.bins {
      PairedBins(c, s.asg, s.bins, m, target);
      forall b | 0 <= b < s.bins ensures BinTotal(c, s.asg, b) >= 0 { BinTotalNonNegative(c, s.asg, b); }
      SumBinsFrom(c, s.asg, 2 * m, s.bins, 0);
    }
  }

  // ---------------------------------------------------------------- the bound is attained

  /** Ones and whole targets in turn. */
  function Alternating(n: nat, target: int): (c: seq<int>)
    ensures |c| == n && forall i :: 0 <= i < n ==> c[i] == if i % 2 == 0 then 1 else target
  {
    seq(n, i => if i % 2 == 0 then 1 else target)
  }

  /** All the ones in the last of `m` bins, every target in a bin of its own. */
  function Gathered(n: nat, m: nat): (asg: seq<int>)
    ensures |asg| == n && forall i :: 0 <= i < n ==> asg[i] == if i % 2 == 0 then m - 1 else i / 2
  {
    seq(n, i => if i % 2 == 0 then m - 1 else i / 2)
  }

  /** Neither fits behind the other, so next-fit opens a bin for every item. */
  lemma {:induction false} AlternatingRun(n: nat, target: int)
    requires 1 <= target < INT64_MAX
    ensures var s := Run64(Alternating(n, target), target);
            s.bins == n && (n > 0 ==> s.hasCurrent && s.used == if n % 2 == 1 then 1 else target)
  {
    if n > 0 {
      AlternatingRun(n - 1, target);
      assert Alternating(n, target)[..n - 1] == Alternating(n - 1, target);
    }
  }

  lemma {:induction false} GatheredTotal(n: nat, m: nat, target: int, b: nat)
    requires b < m && n < 2 * m
    ensures BinTotal(Alternating(n, target), Gathered(n, m), b)
            == if b == m - 1 then (n + 1) / 2 else if 2 * b + 1 < n then target else 0
  {
    if n > 0 {
      assert Alternating(n, target)[..n - 1] == Alternating(n - 1, target);
      assert Gathered(n, m)[..n - 1] == Gathered(n - 1, m);
      GatheredTotal(n - 1, m, target, b);
    }
  }

  /** For every `m` up to the target there are costs that fit `m` bins and of which next-fit makes `2 * m - 1`. */
  lemma TwiceAttained(m: nat, target: int)
    requires 1 <= m <= target < INT64_MAX
    ensures exists costs, packing ::
              Positive(costs) && Legal(costs, target, packing, m) && Run64(costs, target).bins == 2 * m - 1
  {
    var n := 2 * m - 1;
    var costs, packing := Alternating(n, target), Gathered(n, m);
    AlternatingRun(n, target);
    hide BinTotal, Run64;
    forall b | 0 <= b < m ensures LegalBin(costs, target, packing, b) { GatheredTotal(n, m, target, b); }
    assert Positive(costs);
    assert Legal(costs, target, packing, m);
  }

  // ---------------------------------------------------------------- 64-bit loads

  lemma {:induction false} SmallTargetNoOverflow(costs: seq<int>, target: int)
    requires 1 <= target && 2 * target <= INT64_MAX && Positive(costs)
    ensures NoOverflow(costs, target)
  {
    if |costs| > 0 {
      SmallTargetNoOverflow(costs[..|costs| - 1], target);
      RunShape(costs[..|costs| - 1], target);
    }
  }

  /** The running load stays in range on every input exactly for targets up to half of `INT64_MAX`. */
  lemma NextFitOverflowExactly(target: int)
    requires 1 <= target <= INT64_MAX
    ensures (forall costs :: Positive(costs) ==> NoOverflow(costs, target)) <==> 2 * target <= INT64_MAX
  {
    if 2 * target <= INT64_MAX {
      forall costs | Positive(costs) ensures NoOverflow(costs, target) { SmallTargetNoOverflow(costs, target); }
    } else {
      var costs := [target, target];
      assert costs[..1] == [target];
      assert Run([target], target).used == target by { assert [target][..0] == []; }
      assert Positive(costs) && !NoOverflow(costs, target);
    }
  }
}
