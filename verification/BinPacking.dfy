/** Assignments of costed items to bins, and what makes one legal.

    An assignment gives each item a bin number (`UNPLACED` for none yet).  A legal bin totals at
    most the target, or holds a single item, which may then be oversized. */
module BinPacking {

  const UNPLACED := -1

  /** The sum of the weights `v[i]` over the items assigned to bin `b`. */
  function BinTotal(v: seq<int>, asg: seq<int>, b: int): int
    requires |v| == |asg|
  {
    if |v| == 0 then 0
    else BinTotal(v[..|v| - 1], asg[..|v| - 1], b) + (if asg[|v| - 1] == b then v[|v| - 1] else 0)
  }

  function Total(v: seq<int>): int {
    if |v| == 0 then 0 else Total(v[..|v| - 1]) + v[|v| - 1]
  }

  /** The bin totals of bins `0..k` added up. */
  function SumBins(v: seq<int>, asg: seq<int>, k: nat): int
    requires |v| == |asg|
  {
    if k == 0 then 0 else SumBins(v, asg, k - 1) + BinTotal(v, asg, k - 1)
  }

  function Ones(n: nat): (s: seq<int>) { seq(n, _ => 1) }

  function BinCount(asg: seq<int>, b: int): int { BinTotal(Ones(|asg|), asg, b) }

  /** The cost an item has once an oversized one is taken to fill a bin exactly. */
  function Capped(costs: seq<int>, target: int): (c: seq<int>)
    ensures |c| == |costs|
  {
    seq(|costs|, i requires 0 <= i < |costs| => if costs[i] > target then target else costs[i])
  }

  predicate LegalBin(costs: seq<int>, target: int, asg: seq<int>, b: int)
    requires |costs| == |asg|
  {
    BinTotal(costs, asg, b) <= target || BinCount(asg, b) == 1
  }

  ghost predicate Legal(costs: seq<int>, target: int, asg: seq<int>, m: nat)
  {
    && |asg| == |costs|
    && (forall i :: 0 <= i < |asg| ==> 0 <= asg[i] < m)
    && (forall b :: 0 <= b < m ==> LegalBin(costs, target, asg, b))
  }

  predicate Positive(costs: seq<int>) { forall i :: 0 <= i < |costs| ==> costs[i] >= 1 }

  /** Every bin number below `k` is in use. */
  ghost predicate AllUsed(asg: seq<int>, k: nat) {
    forall b :: 0 <= b < k ==> b in asg
  }

  // ---------------------------------------------------------------- totals

  lemma {:induction false} BinTotalUpdate(v: seq<int>, asg: seq<int>, i: nat, b: int, other: int)
    requires |v| == |asg| && i < |asg| && asg[i] != b
    ensures BinTotal(v, asg[i := b], b) == BinTotal(v, asg, b) + v[i]
    ensures other != b && other != asg[i] ==> BinTotal(v, asg[i := b], other) == BinTotal(v, asg, other)
  {
    var n := |v| - 1;
    if i == n {
      assert asg[i := b][..n] == asg[..n];
    } else {
      assert asg[i := b][..n] == asg[..n][i := b];
      BinTotalUpdate(v[..n], asg[..n], i, b, other);
    }
  }

  /** Appending an item adds its weight to its own bin and to no other. */
  lemma BinTotalAppend(v: seq<int>, asg: seq<int>, x: int, b: int, other: int)
    requires |v| == |asg|
    ensures BinTotal(v + [x], asg + [b], other) == BinTotal(v, asg, other) + (if b == other then x else 0)
  {
    assert (v + [x])[..|v|] == v && (asg + [b])[..|v|] == asg;
  }

  lemma {:induction false} BinTotalEmpty(v: seq<int>, asg: seq<int>, b: int)
    requires |v| == |asg| && forall i :: 0 <= i < |asg| ==> asg[i] != b
    ensures BinTotal(v, asg, b) == 0
  {
    if |v| > 0 { BinTotalEmpty(v[..|v| - 1], asg[..|v| - 1], b); }
  }

  /** Weights related item by item are related bin by bin. */
  lemma {:induction false} BinTotalScaled(v: seq<int>, w: seq<int>, f: int, g: int, asg: seq<int>, b: int)
    requires |v| == |w| == |asg| && forall i :: 0 <= i < |v| ==> f * v[i] <= g * w[i]
    ensures f * BinTotal(v, asg, b) <= g * BinTotal(w, asg, b)
  {
    if |v| > 0 {
      var n := |v| - 1;
      BinTotalScaled(v[..n], w[..n], f, g, asg[..n], b);
      assert f * (BinTotal(v[..n], asg[..n], b) + v[n]) == f * BinTotal(v[..n], asg[..n], b) + f * v[n];
      assert g * (BinTotal(w[..n], asg[..n], b) + w[n]) == g * BinTotal(w[..n], asg[..n], b) + g * w[n];
    }
  }

  /** With weights that are not negative, a bin weighs at least what any one of its items weighs. */
  lemma {:induction false} BinTotalAtLeast(v: seq<int>, asg: seq<int>, i: nat)
    requires |v| == |asg| && i < |v| && forall j :: 0 <= j < |v| ==> v[j] >= 0
    ensures BinTotal(v, asg, asg[i]) >= v[i]
  {
    var n := |v| - 1;
    if i < n {
      BinTotalAtLeast(v[..n], asg[..n], i);
    } else {
      BinTotalNonNegative(v[..n], asg[..n], asg[i]);
    }
  }

  lemma {:induction false} BinTotalNonNegative(v: seq<int>, asg: seq<int>, b: int)
    requires |v| == |asg| && forall j :: 0 <= j < |v| ==> v[j] >= 0
    ensures BinTotal(v, asg, b) >= 0
  {
    if |v| > 0 { BinTotalNonNegative(v[..|v| - 1], asg[..|v| - 1], b); }
  }

  lemma {:induction false} SumBinsLast(v: seq<int>, asg: seq<int>, k: nat)
    requires |v| == |asg| > 0
    ensures var n := |v| - 1;
            SumBins(v, asg, k) == SumBins(v[..n], asg[..n], k) + (if 0 <= asg[n] < k then v[n] else 0)
  {
    if k > 0 { SumBinsLast(v, asg, k - 1); }
  }

  lemma {:induction false} SumBinsNone(v: seq<int>, asg: seq<int>, k: nat)
    requires |v| == |asg| == 0
    ensures SumBins(v, asg, k) == 0
  {
    if k > 0 { SumBinsNone(v, asg, k - 1); }
  }

  /** Bins that hold every item hold the whole weight, whatever the assignment. */
  lemma {:induction false} SumBinsIsTotal(v: seq<int>, asg: seq<int>, k: nat)
    requires |v| == |asg| && forall i :: 0 <= i < |asg| ==> 0 <= asg[i] < k
    ensures SumBins(v, asg, k) == Total(v)
  {
    if |v| == 0 {
      SumBinsNone(v, asg, k);
    } else {
      SumBinsLast(v, asg, k);
      SumBinsIsTotal(v[..|v| - 1], asg[..|v| - 1], k);
    }
  }

  lemma {:induction false} SumBinsAtMost(v: seq<int>, asg: seq<int>, k: nat, limit: int)
    requires |v| == |asg| && forall b :: 0 <= b < k ==> BinTotal(v, asg, b) <= limit
    ensures SumBins(v, asg, k) <= k * limit
  {
    if k > 0 {
      SumBinsAtMost(v, asg, k - 1, limit);
      assert k * limit == (k - 1) * limit + limit;
    }
  }

  lemma {:induction false} SumBinsAtLeast(v: seq<int>, asg: seq<int>, k: nat, limit: int)
    requires |v| == |asg| && forall b :: 0 <= b < k ==> BinTotal(v, asg, b) >= limit
    ensures SumBins(v, asg, k) >= k * limit
  {
    if k > 0 {
      SumBinsAtLeast(v, asg, k - 1, limit);
      assert k * limit == (k - 1) * limit + limit;
    }
  }

  /** Adding further bins that each weigh at least `limit`. */
  lemma {:induction false} SumBinsFrom(v: seq<int>, asg: seq<int>, b: nat, k: nat, limit: int)
    requires |v| == |asg| && b <= k && forall j :: b <= j < k ==> BinTotal(v, asg, j) >= limit
    ensures SumBins(v, asg, k) >= SumBins(v, asg, b) + (k - b) * limit
    decreases k
  {
    if b < k {
      SumBinsFrom(v, asg, b, k - 1, limit);
      assert (k - b) * limit == (k - 1 - b) * limit + limit;
    }
  }

  /** Only the items of a bin count towards its total. */
  lemma {:induction false} BinTotalSame(v: seq<int>, w: seq<int>, asg: seq<int>, b: int)
    requires |v| == |w| == |asg| && forall i :: 0 <= i < |v| && asg[i] == b ==> v[i] == w[i]
    ensures BinTotal(v, asg, b) == BinTotal(w, asg, b)
  {
    if |v| > 0 { BinTotalSame(v[..|v| - 1], w[..|v| - 1], asg[..|v| - 1], b); }
  }

  lemma {:induction false} BinTotalLessOnes(v: seq<int>, w: seq<int>, asg: seq<int>, b: int)
    requires |v| == |w| == |asg| && forall i :: 0 <= i < |v| ==> w[i] == v[i] - 1
    ensures BinTotal(w, asg, b) == BinTotal(v, asg, b) - BinCount(asg, b)
  {
    if |v| > 0 {
      var n := |v| - 1;
      BinTotalLessOnes(v[..n], w[..n], asg[..n], b);
      assert Ones(|asg|)[..n] == Ones(n);
    }
  }

  // ---------------------------------------------------------------- what any legal packing obeys

  /** No legal bin exceeds the target in capped cost. */
  lemma LegalBinCapped(costs: seq<int>, target: int, asg: seq<int>, b: int)
    requires |costs| == |asg| && LegalBin(costs, target, asg, b)
    ensures BinTotal(Capped(costs, target), asg, b) <= target
  {
    var c := Capped(costs, target);
    if BinCount(asg, b) == 1 {
      BinTotalScaled(c, Ones(|asg|), 1, target, asg, b);
    } else {
      BinTotalScaled(c, costs, 1, 1, asg, b);
    }
  }

  /** A bin within the target in capped cost is legal: an oversized item leaves no room for company. */
  lemma CappedBinLegal(costs: seq<int>, target: int, asg: seq<int>, b: int)
    requires target >= 1 && Positive(costs) && |costs| == |asg|
    requires BinTotal(Capped(costs, target), asg, b) <= target
    ensures LegalBin(costs, target, asg, b)
  {
    var c := Capped(costs, target);
    if x :| 0 <= x < |costs| && asg[x] == b && costs[x] > target {
      var w := seq(|c|, i requires 0 <= i < |c| => c[i] - 1);
      BinTotalLessOnes(c, w, asg, b);
      BinTotalAtLeast(w, asg, x);
      BinTotalAtLeast(Ones(|asg|), asg, x);
    } else {
      BinTotalSame(costs, c, asg, b);
    }
  }

  /** The capped cost of all items is at most the number of bins times the target. */
  lemma CappedTotalBound(costs: seq<int>, target: int, asg: seq<int>, m: nat)
    requires Legal(costs, target, asg, m)
    ensures Total(Capped(costs, target)) <= m * target
  {
    var c := Capped(costs, target);
    forall b | 0 <= b < m ensures BinTotal(c, asg, b) <= target { LegalBinCapped(costs, target, asg, b); }
    SumBinsAtMost(c, asg, m, target);
    SumBinsIsTotal(c, asg, m);
  }

  /** 1 for an item above half the target, else 0. */
  function Big(c: seq<int>, target: int): (s: seq<int>)
    ensures |s| == |c|
  {
    seq(|c|, i requires 0 <= i < |c| => if 2 * c[i] > target then 1 else 0)
  }

  lemma MulMonotone(f: int, x: int, y: int)
    requires f >= 0 && x <= y
    ensures f * x <= f * y
  {
    assert f * y - f * x == f * (y - x);
  }

  /** Two items above half the target cannot share a legal bin. */
  lemma LegalBinBig(costs: seq<int>, target: int, asg: seq<int>, b: int)
    requires target >= 1 && Positive(costs) && |costs| == |asg| && LegalBin(costs, target, asg, b)
    ensures BinTotal(Big(Capped(costs, target), target), asg, b) <= 1
  {
    var c := Capped(costs, target);
    var big := Big(c, target);
    LegalBinCapped(costs, target, asg, b);
    forall i | 0 <= i < |big| ensures (target + 1) * big[i] <= 2 * c[i] {
      if big[i] == 0 { assert (target + 1) * 0 == 0; } else { assert (target + 1) * 1 == target + 1; }
    }
    BinTotalScaled(big, c, target + 1, 2, asg, b);
    var x := BinTotal(big, asg, b);
    if 2 <= x { MulMonotone(target + 1, 2, x); }
  }

  /** A legal packing needs a bin of its own for every item above half the target. */
  lemma BigItemsBound(costs: seq<int>, target: int, asg: seq<int>, m: nat)
    requires target >= 1 && Positive(costs) && Legal(costs, target, asg, m)
    ensures Total(Big(Capped(costs, target), target)) <= m
  {
    var big := Big(Capped(costs, target), target);
    forall b | 0 <= b < m ensures BinTotal(big, asg, b) <= 1 { LegalBinBig(costs, target, asg, b); }
    SumBinsAtMost(big, asg, m, 1);
    SumBinsIsTotal(big, asg, m);
  }
}
