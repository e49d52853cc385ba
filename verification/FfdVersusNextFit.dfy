/** When first-fit decreasing needs no more packs than next-fit, for the costs estimated from file sizes. */
module FfdVersusNextFit {
  import opened BinPacking
  import opened FfdSort
  import opened Ffd
  import opened Int64
  import FfdOptimal
  import NextFit
  import Sizes

  function Costs(sizes: seq<nat>): (c: seq<int>)
    ensures |c| == |sizes|
    ensures forall i :: 0 <= i < |c| ==> c[i] == Sizes.EstimateEntryCost(sizes[i])
    ensures Positive(c)
  {
    seq(|sizes|, i requires 0 <= i < |sizes| => Sizes.EstimateEntryCost(sizes[i]))
  }

  // ---------------------------------------------------------------- costs are whole blocks

  ghost predicate Whole(x: int) { x % 512 == 0 }

  ghost predicate Blocks(costs: seq<int>) { forall i :: 0 <= i < |costs| ==> Whole(costs[i]) }

  lemma WholeAdds(x: int, y: int)
    requires Whole(x) && Whole(y)
    ensures Whole(x + y) && Whole(x - y)
  {}

  /** Less than a block more makes no room for anything that is whole blocks. */
  lemma WholeFits(room: int, more: int, cost: int, r: nat)
    requires Whole(room) && Whole(cost) && room <= more <= room + r && r < 512
    ensures more >= cost <==> room >= cost
  {}

  lemma {:induction false} BinTotalBlocks(costs: seq<int>, asg: seq<int>, b: int)
    requires |costs| == |asg| && Blocks(costs)
    ensures Whole(BinTotal(costs, asg, b))
  {
    if |costs| > 0 {
      BinTotalBlocks(costs[..|costs| - 1], asg[..|asg| - 1], b);
      hide Whole;
      WholeAdds(BinTotal(costs[..|costs| - 1], asg[..|asg| - 1], b), costs[|costs| - 1]);
    }
  }

  /** A packing is as legal for the target rounded down to whole blocks. */
  lemma LegalRounded(costs: seq<int>, whole: int, r: nat, asg: seq<int>, m: nat)
    requires Blocks(costs) && Whole(whole) && r < 512 && Legal(costs, whole + r, asg, m)
    ensures Legal(costs, whole, asg, m)
  {
    hide Whole;
    forall b | 0 <= b < m ensures LegalBin(costs, whole, asg, b) {
      assert LegalBin(costs, whole + r, asg, b);
      BinTotalBlocks(costs, asg, b);
      WholeFits(whole, whole + r, BinTotal(costs, asg, b), r);
    }
  }

  /** The same items in the same bins, with up to `r` more room for what rounding took away. */
  ghost predicate Alike(s: State, t: State, r: nat) {
    && s.asg == t.asg && |s.rem| == |t.rem|
    && forall j :: 0 <= j < |s.rem| ==> Whole(t.rem[j]) && t.rem[j] <= s.rem[j] <= t.rem[j] + r
  }

  lemma FirstRoomAlike(s: State, t: State, cost: int, r: nat)
    requires Alike(s, t, r) && Whole(cost) && r < 512
    ensures FirstRoom(s.rem, cost, 0) == FirstRoom(t.rem, cost, 0)
  {
    hide Whole, FirstRoom;
    forall j | 0 <= j < |s.rem| ensures s.rem[j] >= cost <==> t.rem[j] >= cost {
      WholeFits(t.rem[j], s.rem[j], cost, r);
    }
  }

  lemma PlaceAlike(s: State, t: State, costs: seq<int>, whole: int, r: nat, x: nat)
    requires Alike(s, t, r) && |s.asg| == |costs| && x < |costs|
    requires Whole(costs[x]) && Whole(whole) && r < 512
    ensures Alike(Place(s, costs, whole + r, x), Place(t, costs, whole, x), r)
  {
    FirstRoomAlike(s, t, costs[x], r);
    assert Whole(0);
    hide Whole, FirstRoom;
    WholeFits(whole, whole + r, costs[x], r);
    WholeAdds(whole, costs[x]);
    var b := FirstRoom(t.rem, costs[x], 0);
    if b < |t.rem| { WholeAdds(t.rem[b], costs[x]); }
  }

  lemma {:induction false} PlaceAllAlike(costs: seq<int>, whole: int, r: nat, order: seq<nat>, p: nat)
    requires Blocks(costs) && Whole(whole) && r < 512 && p <= |order| && InRange(order, |costs|)
    ensures Alike(PlaceAll(costs, whole + r, order, p), PlaceAll(costs, whole, order, p), r)
  {
    if p > 0 {
      PlaceAllAlike(costs, whole, r, order, p - 1);
      var s, t := PlaceAll(costs, whole + r, order, p - 1), PlaceAll(costs, whole, order, p - 1);
      hide Whole, Alike, Place;
      PlaceAlike(s, t, costs, whole, r, order[p - 1]);
    }
  }

  lemma CostsAreBlocks(sizes: seq<nat>)
    ensures Blocks(Costs(sizes))
  {}

  /** With every file's cost above a third of a block less than the target, no legal packing has fewer packs. */
  lemma FfdOptimalForSizes(sizes: seq<nat>, target: int, order: seq<nat>, packing: seq<int>, m: nat)
    requires target >= 1 && IsVisitOrder(order, Costs(sizes)) && Legal(Costs(sizes), target, packing, m)
    requires forall i :: 0 <= i < |sizes| ==> 3 * Costs(sizes)[i] > target - 512
    ensures |PlaceAll(Costs(sizes), target, order, |order|).rem| <= m
  {
    if target < 512 {
      FfdOptimal.FfdOptimalFromThird(Costs(sizes), target, order, packing, m);
    } else {
      OptimalRounded(sizes, target - target % 512, target % 512, order, packing, m);
    }
  }

  lemma OptimalRounded(sizes: seq<nat>, whole: int, r: nat, order: seq<nat>, packing: seq<int>, m: nat)
    requires whole >= 1 && Whole(whole) && r < 512 && IsVisitOrder(order, Costs(sizes))
    requires Legal(Costs(sizes), whole + r, packing, m)
    requires forall i :: 0 <= i < |sizes| ==> 3 * Costs(sizes)[i] > whole + r - 512
    ensures |PlaceAll(Costs(sizes), whole + r, order, |order|).rem| <= m
  {
    var c := Costs(sizes);
    CostsAreBlocks(sizes);
    forall i | 0 <= i < |c| ensures 3 * c[i] >= whole { ThirdOfWhole(c[i], whole); }
    assert InRange(order, |c|);
    hide Whole, IsVisitOrder, PlaceAll, Legal, Positive, Costs;
    LegalRounded(c, whole, r, packing, m);
    PlaceAllAlike(c, whole, r, order, |order|);
    FfdOptimal.FfdOptimalFromThird(c, whole, order, packing, m);
  }

  lemma ThirdOfWhole(cost: int, whole: int)
    requires Whole(cost) && Whole(whole) && 3 * cost > whole - 512
    ensures 3 * cost >= whole
  {}

  // ---------------------------------------------------------------- an input on which it needs more

  /** Two items `a` and four of `b`: next-fit fills two bins as `a b b`, taking the two `a` first leaves
      room for three of the four `b`. */
  ghost predicate Awkward(a: int, b: int, target: int) {
    a > b > 0 && a + 2 * b <= target && 2 * a <= target < 2 * a + b && 3 * b <= target < 4 * b
  }

  lemma NextFitOnExample(a: int, b: int, target: int)
    requires Awkward(a, b, target)
    ensures NextFit.Run([a, b, b, a, b, b], target).bins == 2
  {
    assert NextFit.Run([], target) == NextFit.State([], 0, false, 0);
    hide NextFit.Run;
    RunAfter([], a, [a], target);
    RunAfter([a], b, [a, b], target);
    RunAfter([a, b], b, [a, b, b], target);
    RunAfter([a, b, b], a, [a, b, b, a], target);
    RunAfter([a, b, b, a], b, [a, b, b, a, b], target);
    RunAfter([a, b, b, a, b], b, [a, b, b, a, b, b], target);
  }

  lemma RunAfter(costs: seq<int>, x: int, longer: seq<int>, target: int)
    requires longer == costs + [x]
    ensures NextFit.Run(longer, target) == NextFit.Step(NextFit.Run(costs, target), x, target)
  {
    assert longer[..|costs|] == costs;
  }

  lemma ExampleOrder(a: int, b: int, costs: seq<int>, order: seq<nat>)
    requires a > b && costs == [a, b, b, a, b, b] && order == [0, 3, 1, 2, 4, 5]
    ensures IsVisitOrder(order, costs)
  {
    ExampleSorted(a, b, costs, order);
    hide Sorted, Compare, InRange;
    assert Identity(6) == [0, 1, 2, 3, 4, 5];
  }

  lemma ExampleSorted(a: int, b: int, costs: seq<int>, order: seq<nat>)
    requires a > b && costs == [a, b, b, a, b, b] && order == [0, 3, 1, 2, 4, 5]
    ensures Sorted(order, costs)
  {
    forall p, q | 0 <= p < q < 6 ensures Compare(costs, order[p], order[q]) <= 0 {
      assert p >= 2 ==> costs[order[p]] == costs[order[q]] && order[p] < order[q];
    }
  }

  lemma FfdOnExample(a: int, b: int, target: int, costs: seq<int>, order: seq<nat>)
    requires Awkward(a, b, target) && costs == [a, b, b, a, b, b] && order == [0, 3, 1, 2, 4, 5]
    ensures InRange(order, |costs|) && |PlaceAll(costs, target, order, 6).rem| == 3
  {
    assert PlaceAll(costs, target, order, 0).rem == [];
    assert InRange(order, |costs|);
    hide PlaceAll, InRange;
    var u, v := target - 2 * a, target - b;
    Opens(costs, target, order, 1, []);
    Joins(costs, target, order, 2, [target - a], 0);
    Opens(costs, target, order, 3, [u]);
    Joins(costs, target, order, 4, [u, v], 1);
    Joins(costs, target, order, 5, [u, v - b], 1);
    Opens(costs, target, order, 6, [u, v - b - b]);
  }

  /** One step of the example, into a new bin or into bin `j`. */
  lemma Opens(costs: seq<int>, target: int, order: seq<nat>, p: nat, before: seq<int>)
    requires 0 < p <= |order| && InRange(order, |costs|) && costs[order[p - 1]] <= target
    requires PlaceAll(costs, target, order, p - 1).rem == before
    requires forall i :: 0 <= i < |before| ==> before[i] < costs[order[p - 1]]
    ensures PlaceAll(costs, target, order, p).rem == before + [target - costs[order[p - 1]]]
  {}

  lemma Joins(costs: seq<int>, target: int, order: seq<nat>, p: nat, before: seq<int>, j: nat)
    requires 0 < p <= |order| && InRange(order, |costs|) && costs[order[p - 1]] <= target
    requires PlaceAll(costs, target, order, p - 1).rem == before && j < |before|
    requires before[j] >= costs[order[p - 1]] && forall i :: 0 <= i < j ==> before[i] < costs[order[p - 1]]
    ensures PlaceAll(costs, target, order, p).rem == before[j := before[j] - costs[order[p - 1]]]
  {}

  /** First-fit decreasing needs more packs than next-fit, for files of at least `least` bytes. */
  ghost predicate Loses(sizes: seq<nat>, least: nat, target: int, order: seq<nat>, ffd: nat, nextFit: nat) {
    && ffd > nextFit && AtLeast(sizes, least) && IsVisitOrder(order, Costs(sizes))
    && |PlaceAll(Costs(sizes), target, order, |order|).rem| == ffd
    && NextFit.Run64(Costs(sizes), target).bins == nextFit
  }

  ghost predicate AtLeast(sizes: seq<nat>, least: nat) { forall i :: 0 <= i < |sizes| ==> sizes[i] >= least }

  lemma LosesOn(u: nat, v: nat, target: int)
    requires Awkward(Sizes.EstimateEntryCost(u), Sizes.EstimateEntryCost(v), target) && 2 * target <= INT64_MAX
    requires u >= v
    ensures Loses([u, v, v, u, v, v], v, target, [0, 3, 1, 2, 4, 5], 3, 2)
  {
    var a, b := Sizes.EstimateEntryCost(u), Sizes.EstimateEntryCost(v);
    var order: seq<nat> := [0, 3, 1, 2, 4, 5];
    var costs := [a, b, b, a, b, b];
    assert Costs([u, v, v, u, v, v]) == costs;
    assert AtLeast([u, v, v, u, v, v], v);
    hide *;
    AwkwardFacts(a, b, target, costs);
    NextFitOnExample(a, b, target);
    NextFit.SmallTargetNoOverflow(costs, target);
    NextFit.ExactWithoutOverflow(costs, target);
    ExampleOrder(a, b, costs, order);
    FfdOnExample(a, b, target, costs, order);
    LosesIf([u, v, v, u, v, v], v, target, order, 3, 2);
  }

  lemma AwkwardFacts(a: int, b: int, target: int, costs: seq<int>)
    requires Awkward(a, b, target) && costs == [a, b, b, a, b, b]
    ensures a > b && target >= 1 && Positive(costs)
  {}

  lemma LosesIf(sizes: seq<nat>, least: nat, target: int, order: seq<nat>, ffd: nat, nextFit: nat)
    requires ffd > nextFit && AtLeast(sizes, least) && IsVisitOrder(order, Costs(sizes))
    requires |PlaceAll(Costs(sizes), target, order, |order|).rem| == ffd
    requires NextFit.Run64(Costs(sizes), target).bins == nextFit
    ensures Loses(sizes, least, target, order, ffd, nextFit)
  {}

  /** First-fit decreasing is not always the better of the two: six small files, packed 10240 bytes a pack. */
  lemma FfdCanLoseToNextFit()
    ensures Loses([2048, 1024, 1024, 2048, 1024, 1024], 1024, 10240, [0, 3, 1, 2, 4, 5], 3, 2)
  {
    LosesOn(2048, 1024, 10240);
  }

  /** Files that fit two packs, of which first-fit decreasing makes three. */
  ghost predicate Attains(sizes: seq<nat>, target: int, order: seq<nat>, packing: seq<int>) {
    && target >= 1 && IsVisitOrder(order, Costs(sizes)) && Legal(Costs(sizes), target, packing, 2)
    && |PlaceAll(Costs(sizes), target, order, |order|).rem| == 3
  }

  lemma LosesAttains(sizes: seq<nat>, least: nat, target: int, order: seq<nat>)
    requires Loses(sizes, least, target, order, 3, 2) && 1 <= target && 2 * target <= INT64_MAX
    ensures Attains(sizes, target, order, NextFit.Run64(Costs(sizes), target).asg)
  {
    hide Costs, PlaceAll, NextFit.Run, NextFit.Run64, NextFit.NoOverflow, IsVisitOrder, Legal, Positive, AtLeast;
    NextFit.SmallTargetNoOverflow(Costs(sizes), target);
    NextFit.ExactWithoutOverflow(Costs(sizes), target);
    NextFit.NextFitLegal(Costs(sizes), target);
  }

  /** So the bound of three packs for two is attained. */
  lemma ThreeHalvesAttained()
    ensures exists sizes, target, order, packing :: Attains(sizes, target, order, packing)
  {
    hide Loses, Attains;
    FfdCanLoseToNextFit();
    LosesAttains([2048, 1024, 1024, 2048, 1024, 1024], 1024, 10240, [0, 3, 1, 2, 4, 5]);
  }

  /** Two files whose costs add up to more than 64 bits hold: next-fit puts both in one pack. */
  lemma LosesOnLarge(u: nat, target: int)
    requires Sizes.EstimateEntryCost(u) <= target <= INT64_MAX < 2 * Sizes.EstimateEntryCost(u)
    ensures Loses([u, u], u, target, [0, 1], 2, 1)
  {
    var x := Sizes.EstimateEntryCost(u);
    assert Costs([u, u]) == [x, x];
    hide PlaceAll, IsVisitOrder, NextFit.Run64;
    FfdOptimal.TwoLarge([x, x], x, target, [0, 1]);
  }

  // ---------------------------------------------------------------- exactly when

  /** First-fit decreasing needs no more packs than next-fit for files of at least `least` bytes. */
  ghost predicate NeverLoses(least: nat, target: int) {
    forall sizes: seq<nat>, order: seq<nat> ::
      AtLeast(sizes, least) && IsVisitOrder(order, Costs(sizes)) ==>
        |PlaceAll(Costs(sizes), target, order, |order|).rem| <= NextFit.Run64(Costs(sizes), target).bins
  }

  lemma LosesSometimes(sizes: seq<nat>, least: nat, target: int, order: seq<nat>, ffd: nat, nextFit: nat)
    requires Loses(sizes, least, target, order, ffd, nextFit)
    ensures forall l: nat :: l <= least ==> !NeverLoses(l, target)
  {
    forall l: nat | l <= least ensures !NeverLoses(l, target) { assert AtLeast(sizes, l); }
  }

  /** Three of the smallest files cost more than the target less a block, and loads cannot overflow: either the target
      is at most half the largest 64-bit number, or every file has a pack of its own. */
  predicate Favourable(least: nat, target: int) {
    var cost := Sizes.EstimateEntryCost(least);
    3 * cost > target - 512 && (2 * target <= INT64_MAX || cost > target)
  }

  /** Otherwise there are two sizes, the smaller as large as `least`, that make an awkward input. */
  lemma AwkwardSizes(least: nat, target: int) returns (u: nat, v: nat)
    requires 3 * Sizes.EstimateEntryCost(least) <= target - 512
    ensures u >= v >= least && Awkward(Sizes.EstimateEntryCost(u), Sizes.EstimateEntryCost(v), target)
  {
    var l := (least + 511) / 512 + 4;
    var t := target / 512;
    var b := (t - 1) / 3;
    assert Sizes.EstimateEntryCost(least) == 512 * l;
    u, v := 512 * (t - 2 * b) - 2048, 512 * b - 2048;
  }

  /** Or one size, as large as `least`, two of which overflow. */
  lemma LargeSize(least: nat, target: int) returns (u: nat)
    requires Sizes.EstimateEntryCost(least) <= target <= INT64_MAX < 2 * target
    ensures u >= least && Sizes.EstimateEntryCost(u) <= target && INT64_MAX < 2 * Sizes.EstimateEntryCost(u)
  {
    var l := (least + 511) / 512 + 4;
    assert Sizes.EstimateEntryCost(least) == 512 * l;
    u := target / 512 * 512 - 2048;
  }

  /** First-fit decreasing never needs more packs than next-fit exactly if three of the smallest files cost
      more than the target less a block, and next-fit's loads cannot overflow. */
  lemma FfdNotAboveNextFitExactly(least: nat, target: int)
    requires 1 <= target <= INT64_MAX
    ensures NeverLoses(least, target) <==> Favourable(least, target)
  {
    hide NeverLoses, Loses, Costs, Sizes.EstimateEntryCost, Awkward;
    if Favourable(least, target) {
      FavourableNeverLoses(least, target);
    } else if INT64_MAX < 2 * target {
      var u := LargeSize(least, target);
      LosesOnLarge(u, target);
      LosesSometimes([u, u], u, target, [0, 1], 2, 1);
    } else {
      var u, v := AwkwardSizes(least, target);
      LosesOn(u, v, target);
      LosesSometimes([u, v, v, u, v, v], v, target, [0, 3, 1, 2, 4, 5], 3, 2);
    }
  }

  lemma FavourableNeverLoses(least: nat, target: int)
    requires 1 <= target <= INT64_MAX && Favourable(least, target)
    ensures NeverLoses(least, target)
  {
    hide PlaceAll, NextFit.Run64, Costs;
    forall sizes: seq<nat>, order: seq<nat> | AtLeast(sizes, least) && IsVisitOrder(order, Costs(sizes))
      ensures |PlaceAll(Costs(sizes), target, order, |order|).rem| <= NextFit.Run64(Costs(sizes), target).bins
    {
      NotAboveNextFit(sizes, least, target, order);
    }
  }

  /** Items beyond the target are never added up. */
  lemma {:induction false} OversizedNoOverflow(costs: seq<int>, target: int)
    requires forall i :: 0 <= i < |costs| ==> costs[i] > target
    ensures NextFit.NoOverflow(costs, target) && !NextFit.Run(costs, target).hasCurrent
  {
    if |costs| > 0 { OversizedNoOverflow(costs[..|costs| - 1], target); }
  }

  lemma CostsAtLeast(sizes: seq<nat>, least: nat)
    requires AtLeast(sizes, least)
    ensures forall i :: 0 <= i < |sizes| ==> Costs(sizes)[i] >= Sizes.EstimateEntryCost(least)
  {}

  lemma NotAboveNextFit(sizes: seq<nat>, least: nat, target: int, order: seq<nat>)
    requires 1 <= target <= INT64_MAX && AtLeast(sizes, least) && IsVisitOrder(order, Costs(sizes))
    requires Favourable(least, target)
    ensures |PlaceAll(Costs(sizes), target, order, |order|).rem| <= NextFit.Run64(Costs(sizes), target).bins
  {
    hide IsVisitOrder, PlaceAll, Costs, AtLeast, Sizes.EstimateEntryCost;
    hide NextFit.Run, NextFit.Run64, NextFit.NoOverflow;
    var c := Costs(sizes);
    CostsAtLeast(sizes, least);
    if 2 * target <= INT64_MAX { NextFit.SmallTargetNoOverflow(c, target); } else { OversizedNoOverflow(c, target); }
    NextFit.ExactWithoutOverflow(c, target);
    NextFit.NextFitLegal(c, target);
    var s := NextFit.Run(c, target);
    FfdOptimalForSizes(sizes, target, order, s.asg, s.bins);
  }
}
