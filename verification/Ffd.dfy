/** First-fit decreasing: `tp_bin_assign_ffd`, and its bound of three bins for any two. */
module Ffd {
  import opened BinPacking
  import opened FfdSort

  /** The assignment so far and the room left in every open bin. */
  datatype State = State(asg: seq<int>, rem: seq<int>)

  /** The first bin from `b` on with room for `cost`, or the number of bins. */
  function FirstRoom(rem: seq<int>, cost: int, b: nat): (r: nat)
    requires b <= |rem|
    ensures b <= r <= |rem|
    ensures r < |rem| ==> rem[r] >= cost
    ensures forall j :: b <= j < r ==> rem[j] < cost
    decreases |rem| - b
  {
    if b == |rem| || rem[b] >= cost then b else FirstRoom(rem, cost, b + 1)
  }

  /** Places item `x`.  An oversized item counts as filling the bin it opens. */
  function Place(s: State, costs: seq<int>, target: int, x: nat): (t: State)
    requires |s.asg| == |costs| && x < |costs|
    ensures |t.asg| == |costs|
  {
    if costs[x] > target then State(s.asg[x := |s.rem|], s.rem + [0])
    else
      var b := FirstRoom(s.rem, costs[x], 0);
      if b == |s.rem| then State(s.asg[x := b], s.rem + [target - costs[x]])
      else State(s.asg[x := b], s.rem[b := s.rem[b] - costs[x]])
  }

  /** The state after the items `order[..p]`, with all others unplaced. */
  function PlaceAll(costs: seq<int>, target: int, order: seq<nat>, p: nat): (s: State)
    requires p <= |order| && InRange(order, |costs|)
    ensures |s.asg| == |costs|
  {
    if p == 0 then State(seq(|costs|, _ => UNPLACED), [])
    else Place(PlaceAll(costs, target, order, p - 1), costs, target, order[p - 1])
  }

  /** Assigns every item of `costs` to a bin, writing `binOut[off..]`; -1 for a target below 1. */
  method BinAssignFfd(costs: seq<int>, target: int, binOut: array<int>, off: nat, mallocFails: (nat, nat) -> bool)
    returns (k: int, ghost order: seq<nat>)
    requires off + |costs| <= binOut.Length
    modifies binOut
    ensures target <= 0 ==> k == -1 && binOut[..] == old(binOut[..])
    ensures target > 0 ==> IsVisitOrder(order, costs)
    ensures target > 0 ==> var s := PlaceAll(costs, target, order, |order|);
                           k == |s.rem| && binOut[off..off + |costs|] == s.asg
    ensures binOut[..off] == old(binOut[..off])
    ensures binOut[off + |costs|..] == old(binOut[off + |costs|..])
  {
    order := [];
    if target <= 0 { return -1, order; }
    if |costs| == 0 { return 0, order; }
    var perm := new nat[|costs|](i => i);
    assert perm[..] == Identity(|costs|);
    assert perm[0..|costs|] == perm[..];
    order := FfdSortIndices(perm, 0, |costs|, costs, mallocFails);
    OverlayParts(Identity(|costs|), 0, order);
    assert perm[..] == order;
    assert IsVisitOrder(order, costs);
    k := FirstFit(costs, target, perm[..], binOut, off);
  }

  /** The walk over the items in visit order, each into the first open bin with room. */
  method FirstFit(costs: seq<int>, target: int, order: seq<nat>, binOut: array<int>, off: nat) returns (k: nat)
    requires off + |costs| <= binOut.Length && IsVisitOrder(order, costs)
    modifies binOut
    ensures var s := PlaceAll(costs, target, order, |order|);
            k == |s.rem| && binOut[off..off + |costs|] == s.asg
    ensures binOut[..off] == old(binOut[..off])
    ensures binOut[off + |costs|..] == old(binOut[off + |costs|..])
  {
    assert InRange(order, |costs|);
    hide IsVisitOrder;
    ghost var s := PlaceAll(costs, target, order, 0);
    ghost var was := binOut[..];
    var rem: seq<int> := [];
    for oi := 0 to |order|
      invariant s == PlaceAll(costs, target, order, oi) && rem == s.rem
      invariant forall i :: 0 <= i < |costs| && s.asg[i] != UNPLACED ==> binOut[off + i] == s.asg[i]
      invariant forall i :: 0 <= i < binOut.Length && !(off <= i < off + |costs|) ==> binOut[i] == was[i]
    {
      hide Place;
      var idx := order[oi];
      var chosen;
      rem, chosen := ChooseBin(rem, costs, target, idx, s);
      binOut[off + idx] := chosen;
      s := Place(s, costs, target, idx);
    }
    k := |rem|;
    EveryItemPlaced(costs, target, order);
    hide PlaceAll, InRange;
    assert forall i :: 0 <= i < |costs| ==> binOut[off + i] == s.asg[i];
    assert binOut[off..off + |costs|] == s.asg;
    assert binOut[..off] == was[..off] && binOut[off + |costs|..] == was[off + |costs|..];
  }

  lemma {:induction false} PlacedSoFar(costs: seq<int>, target: int, order: seq<nat>, p: nat, q: nat)
    requires q < p <= |order| && InRange(order, |costs|)
    ensures PlaceAll(costs, target, order, p).asg[order[q]] >= 0
  {
    if q < p - 1 { PlacedSoFar(costs, target, order, p - 1, q); }
  }

  lemma EveryItemPlaced(costs: seq<int>, target: int, order: seq<nat>)
    requires IsVisitOrder(order, costs)
    ensures forall i :: 0 <= i < |costs| ==> PlaceAll(costs, target, order, |order|).asg[i] >= 0
  {
    VisitOrderIsPermutation(order, costs);
    forall i | 0 <= i < |costs| ensures PlaceAll(costs, target, order, |order|).asg[i] >= 0 {
      assert i in order;
      var q :| 0 <= q < |order| && order[q] == i;
      PlacedSoFar(costs, target, order, |order|, q);
    }
  }

  /** Takes room for item `x` in the first bin that has it, or opens a bin; an oversized item fills a bin of its own. */
  method ChooseBin(rem: seq<int>, costs: seq<int>, target: int, x: nat, ghost s: State)
    returns (newRem: seq<int>, chosen: nat)
    requires x < |costs| == |s.asg| && rem == s.rem
    ensures Place(s, costs, target, x) == State(s.asg[x := chosen], newRem)
  {
    var cost := costs[x];
    if cost > target {
      return rem + [0], |rem|;
    }
    chosen := FindRoom(rem, cost);
    if chosen == |rem| {
      newRem := rem + [target - cost];
    } else {
      newRem := rem[chosen := rem[chosen] - cost];
    }
  }

  /** The scan over the open bins. */
  method FindRoom(rem: seq<int>, cost: int) returns (chosen: nat)
    ensures chosen == FirstRoom(rem, cost, 0)
  {
    chosen := 0;
    while chosen < |rem| && rem[chosen] < cost
      invariant chosen <= |rem|
      invariant FirstRoom(rem, cost, 0) == FirstRoom(rem, cost, chosen)
    {
      chosen := chosen + 1;
    }
  }

  // ---------------------------------------------------------------- invariant

  /** Every open bin has an opener; openers come in descending cost; `second[j]` is another item of bin `j`,
      or `UNPLACED` when there is none; and no item would have fitted any bin before its own. */
  ghost predicate Shape(costs: seq<int>, target: int, s: State, first: seq<nat>, second: seq<int>) {
    var c, k := Capped(costs, target), |s.rem|;
    && |s.asg| == |costs| && |first| == |second| == k && InRange(first, |costs|)
    && (forall i :: 0 <= i < |s.asg| ==> UNPLACED <= s.asg[i] < k)
    && (forall j :: 0 <= j < k ==> BinState(c, target, s, first, second, j))
    && (forall i, j :: 0 <= i < j < k ==> c[first[i]] >= c[first[j]])
    && (forall x, i :: 0 <= x < |costs| && 0 <= i < s.asg[x] ==> c[x] > s.rem[i])
  }

  predicate BinState(c: seq<int>, target: int, s: State, first: seq<nat>, second: seq<int>, j: nat)
    requires |s.asg| == |c| && |first| == |second| == |s.rem| && j < |s.rem|
  {
    && first[j] < |c| && s.asg[first[j]] == j
    && s.rem[j] == target - BinTotal(c, s.asg, j) && s.rem[j] >= 0
    && UNPLACED <= second[j] < |c|
    && (if second[j] == UNPLACED then BinTotal(c, s.asg, j) == c[first[j]]
        else s.asg[second[j]] == j && BinTotal(c, s.asg, j) >= c[first[j]] + c[second[j]])
  }

  /** Item `x` is still to come, and costs no more than anything placed. */
  ghost predicate Next(costs: seq<int>, target: int, s: State, x: nat)
    requires |s.asg| == |costs|
  {
    && x < |costs| && s.asg[x] == UNPLACED
    && forall y :: 0 <= y < |costs| && s.asg[y] >= 0 ==> Capped(costs, target)[y] >= Capped(costs, target)[x]
  }

  /** Capping costs does not change where an item goes. */
  lemma PlaceCapped(costs: seq<int>, target: int, s: State, first: seq<nat>, second: seq<int>, x: nat)
    requires target >= 1 && Positive(costs) && Shape(costs, target, s, first, second) && x < |costs|
    ensures Place(s, costs, target, x) == Place(s, Capped(costs, target), target, x)
  {
    var c := Capped(costs, target);
    if costs[x] > target {
      forall j | 0 <= j < |s.rem| ensures s.rem[j] < target {
        assert BinState(c, target, s, first, second, j);
        BinTotalAtLeast(c, s.asg, first[j]);
      }
      assert FirstRoom(s.rem, target, 0) == |s.rem|;
    }
  }

  lemma OpensBin(costs: seq<int>, target: int, s: State, first: seq<nat>, second: seq<int>, x: nat, j: nat)
    requires target >= 1 && Positive(costs) && Shape(costs, target, s, first, second) && j <= |s.rem|
    requires x < |costs| && s.asg[x] == UNPLACED
    ensures var c := Capped(costs, target);
            var t := State(s.asg[x := |s.rem|], s.rem + [target - c[x]]);
            BinState(c, target, t, first + [x], second + [UNPLACED], j)
  {
    hide FirstRoom, Place;
    var c := Capped(costs, target);
    BinTotalUpdate(c, s.asg, x, |s.rem|, j);
    if j < |s.rem| { assert BinState(c, target, s, first, second, j); } else { BinTotalEmpty(c, s.asg, |s.rem|); }
  }

  lemma PlaceOpens(costs: seq<int>, target: int, s: State, first: seq<nat>, second: seq<int>, x: nat)
    requires target >= 1 && Positive(costs) && Shape(costs, target, s, first, second) && Next(costs, target, s, x)
    requires FirstRoom(s.rem, Capped(costs, target)[x], 0) == |s.rem|
    ensures Shape(costs, target, Place(s, costs, target, x), first + [x], second + [UNPLACED])
  {
    hide BinTotal;
    var c := Capped(costs, target);
    PlaceCapped(costs, target, s, first, second, x);
    var t := Place(s, costs, target, x);
    var f, g := first + [x], second + [UNPLACED];
    forall j | 0 <= j < |t.rem| ensures BinState(c, target, t, f, g, j) {
      OpensBin(costs, target, s, first, second, x, j);
    }
    forall i, j | 0 <= i < j < |t.rem| ensures c[f[i]] >= c[f[j]] {
      assert BinState(c, target, s, first, second, i);
    }
  }

  lemma PlaceJoins(costs: seq<int>, target: int, s: State, first: seq<nat>, second: seq<int>, x: nat)
    requires target >= 1 && Positive(costs) && Shape(costs, target, s, first, second) && Next(costs, target, s, x)
    requires FirstRoom(s.rem, Capped(costs, target)[x], 0) < |s.rem|
    ensures Shape(costs, target, Place(s, costs, target, x), first,
                  second[FirstRoom(s.rem, Capped(costs, target)[x], 0) := x])
  {
    var c := Capped(costs, target);
    PlaceCapped(costs, target, s, first, second, x);
    var b := FirstRoom(s.rem, c[x], 0);
    var t := Place(s, costs, target, x);
    var g := second[b := x];
    forall j | 0 <= j < |t.rem| ensures BinState(c, target, t, first, g, j) {
      assert BinState(c, target, s, first, second, j);
      BinTotalUpdate(c, s.asg, x, b, j);
      if j == b && second[b] != UNPLACED { assert c[second[b]] >= 0; }
    }
  }

  lemma PlaceSets(s: State, costs: seq<int>, target: int, x: nat, y: nat)
    requires |s.asg| == |costs| && x < |costs| && y < |costs|
    ensures if y == x then Place(s, costs, target, x).asg[y] >= 0 else Place(s, costs, target, x).asg[y] == s.asg[y]
  {}

  /** The next item in order costs no more than those before. */
  lemma NextInOrder(costs: seq<int>, target: int, order: seq<nat>, p: nat, s: State)
    requires IsVisitOrder(order, costs) && p < |order| && |s.asg| == |costs|
    requires forall y :: 0 <= y < |costs| ==> s.asg[y] >= UNPLACED && (s.asg[y] >= 0 <==> y in order[..p])
    ensures Next(costs, target, s, order[p])
  {
    VisitOrderIsPermutation(order, costs);
    forall y | 0 <= y < |costs| && s.asg[y] >= 0 ensures Capped(costs, target)[y] >= Capped(costs, target)[order[p]] {
      var q :| 0 <= q < p && order[q] == y;
      assert Compare(costs, order[q], order[p]) <= 0;
    }
  }

  /** One more item keeps the shape. */
  lemma PlaceShape(costs: seq<int>, target: int, s: State, first: seq<nat>, second: seq<int>, x: nat)
    returns (f: seq<nat>, g: seq<int>)
    requires target >= 1 && Positive(costs) && Shape(costs, target, s, first, second) && Next(costs, target, s, x)
    ensures Shape(costs, target, Place(s, costs, target, x), f, g)
  {
    var b := FirstRoom(s.rem, Capped(costs, target)[x], 0);
    if b == |s.rem| {
      PlaceOpens(costs, target, s, first, second, x);
      f, g := first + [x], second + [UNPLACED];
    } else {
      PlaceJoins(costs, target, s, first, second, x);
      f, g := first, second[b := x];
    }
  }

  lemma {:induction false} PlaceAllShape(costs: seq<int>, target: int, order: seq<nat>, p: nat)
    returns (first: seq<nat>, second: seq<int>)
    requires target >= 1 && Positive(costs) && IsVisitOrder(order, costs) && p <= |order|
    ensures Shape(costs, target, PlaceAll(costs, target, order, p), first, second)
    ensures forall y :: 0 <= y < |costs| ==>
              (PlaceAll(costs, target, order, p).asg[y] >= 0 <==> y in order[..p])
  {
    hide Place, Next, BinState, FirstRoom, Positive;
    if p == 0 { return [], []; }
    first, second := PlaceAllShape(costs, target, order, p - 1);
    var s, x := PlaceAll(costs, target, order, p - 1), order[p - 1];
    assert order[..p] == order[..p - 1] + [x];
    NextInOrder(costs, target, order, p - 1, s);
    forall y | 0 <= y < |costs| ensures Place(s, costs, target, x).asg[y] >= 0 <==> y in order[..p] {
      PlaceSets(s, costs, target, x, y);
    }
    first, second := PlaceShape(costs, target, s, first, second, x);
  }

  // ---------------------------------------------------------------- results

  /** First-fit-decreasing bins are legal and numbered without gaps. */
  lemma FfdLegal(costs: seq<int>, target: int, order: seq<nat>)
    requires target >= 1 && Positive(costs) && IsVisitOrder(order, costs)
    ensures var s := PlaceAll(costs, target, order, |order|);
            Legal(costs, target, s.asg, |s.rem|) && AllUsed(s.asg, |s.rem|)
  {
    var s := PlaceAll(costs, target, order, |order|);
    var first, second := PlaceAllShape(costs, target, order, |order|);
    VisitOrderIsPermutation(order, costs);
    assert order[..|order|] == order;
    forall b | 0 <= b < |s.rem| ensures LegalBin(costs, target, s.asg, b) && b in s.asg {
      assert BinState(Capped(costs, target), target, s, first, second, b);
      CappedBinLegal(costs, target, s.asg, b);
      assert s.asg[first[b]] == b;
    }
  }

  /** When bin `b` was opened by an item above half the target, so was every bin before it. */
  lemma BigOpeners(costs: seq<int>, target: int, s: State, first: seq<nat>, second: seq<int>, b: nat)
    requires target >= 1 && Positive(costs) && Shape(costs, target, s, first, second) && b < |s.rem|
    requires forall i :: 0 <= i < |s.asg| ==> s.asg[i] >= 0
    requires 2 * Capped(costs, target)[first[b]] > target
    ensures Total(Big(Capped(costs, target), target)) >= b + 1
  {
    var c := Capped(costs, target);
    var big := Big(c, target);
    forall j | 0 <= j <= b ensures BinTotal(big, s.asg, j) >= 1 {
      assert BinState(c, target, s, first, second, j);
      assert j == b || c[first[j]] >= c[first[b]];
      BinTotalAtLeast(big, s.asg, first[j]);
    }
    SumBinsAtLeast(big, s.asg, b + 1, 1);
    forall j | 0 <= j < |s.rem| ensures BinTotal(big, s.asg, j) >= 0 { BinTotalNonNegative(big, s.asg, j); }
    SumBinsFrom(big, s.asg, b + 1, |s.rem|, 0);
    SumBinsIsTotal(big, s.asg, |s.rem|);
  }

  /** From a bin opened by an item of at most half the target on, every bin but the last has two items. */
  lemma SmallBinHasTwo(costs: seq<int>, target: int, s: State, first: seq<nat>, second: seq<int>, b: nat, j: nat)
    requires target >= 1 && Positive(costs) && Shape(costs, target, s, first, second) && b <= j < |s.rem| - 1
    requires 2 * Capped(costs, target)[first[b]] <= target
    ensures second[j] != UNPLACED
  {
    var c, last := Capped(costs, target), |s.rem| - 1;
    assert BinState(c, target, s, first, second, j) && BinState(c, target, s, first, second, last);
    assert j == b || c[first[b]] >= c[first[j]];
    assert c[first[j]] >= c[first[last]];
    assert c[first[last]] > s.rem[j];
  }

  /** The least room left in bins `0..b`, found as the most room `r` in any of them. */
  lemma {:induction false} MostRoom(rem: seq<int>, b: nat) returns (i: nat)
    requires 0 < b <= |rem|
    ensures i < b && forall j :: 0 <= j < b ==> rem[j] <= rem[i]
  {
    if b == 1 { return 0; }
    i := MostRoom(rem, b - 1);
    if rem[b - 1] > rem[i] { i := b - 1; }
  }

  /** Otherwise bins from `b` on weigh enough to top up all the bins before them beyond the target. */
  lemma SmallOpeners(costs: seq<int>, target: int, s: State, first: seq<nat>, second: seq<int>, b: nat)
    requires target >= 1 && Positive(costs) && Shape(costs, target, s, first, second) && 0 < b < |s.rem|
    requires forall i :: 0 <= i < |s.asg| ==> s.asg[i] >= 0
    requires 2 * Capped(costs, target)[first[b]] <= target
    requires b <= 2 * (|s.rem| - b) - 1
    ensures Total(Capped(costs, target)) >= b * (target + 1)
  {
    var c, k := Capped(costs, target), |s.rem|;
    var i0 := MostRoom(s.rem, b);
    var r := s.rem[i0];
    forall j | 0 <= j < b ensures BinTotal(c, s.asg, j) >= target - r {
      assert BinState(c, target, s, first, second, j);
    }
    forall j | b <= j < k - 1 ensures BinTotal(c, s.asg, j) >= 2 * (r + 1) {
      SmallBinHasTwo(costs, target, s, first, second, b, j);
      assert BinState(c, target, s, first, second, j);
      assert c[first[j]] > r && c[second[j]] > r;
    }
    assert BinTotal(c, s.asg, k - 1) >= r + 1 by {
      assert BinState(c, target, s, first, second, k - 1);
      assert c[first[k - 1]] > r;
      BinTotalAtLeast(c, s.asg, first[k - 1]);
    }
    assert r >= 0 by { assert BinState(c, target, s, first, second, i0); }
    hide Shape, BinState, BinTotal, Capped;
    SumBinsAtLeast(c, s.asg, b, target - r);
    SumBinsFrom(c, s.asg, b, k - 1, 2 * (r + 1));
    SumBinsIsTotal(c, s.asg, k);
    TopUp(b, k, r, target);
  }

  lemma TopUp(b: nat, k: nat, r: int, target: int)
    requires 0 < b < k && r >= 0 && b <= 2 * (k - b) - 1
    ensures b * (target - r) + (k - 1 - b) * (2 * (r + 1)) + (r + 1) >= b * (target + 1)
  {
    assert (k - 1 - b) * (2 * (r + 1)) + (r + 1) == (2 * (k - b) - 1) * (r + 1);
    MulMonotone(r + 1, b, 2 * (k - b) - 1);
    assert b * (target - r) + b * (r + 1) == b * (target + 1);
  }

  /** First-fit decreasing opens at most three bins for every two of any legal packing. */
  lemma FfdWithinThreeHalves(costs: seq<int>, target: int, order: seq<nat>, packing: seq<int>, m: nat)
    requires target >= 1 && Positive(costs) && IsVisitOrder(order, costs)
    requires Legal(costs, target, packing, m)
    ensures 2 * |PlaceAll(costs, target, order, |order|).rem| <= 3 * m
  {
    var s := PlaceAll(costs, target, order, |order|);
    var first, second := PlaceAllShape(costs, target, order, |order|);
    var c, k := Capped(costs, target), |s.rem|;
    VisitOrderIsPermutation(order, costs);
    assert order[..|order|] == order;
    if k == 0 { return; }
    assert BinState(c, target, s, first, second, 0);
    assert 0 <= packing[first[0]] < m;
    var b := (2 * k + 2) / 3 - 1;
    if 2 * c[first[b]] > target {
      BigOpeners(costs, target, s, first, second, b);
      BigItemsBound(costs, target, packing, m);
    } else if b > 0 {
      SmallOpeners(costs, target, s, first, second, b);
      CappedTotalBound(costs, target, packing, m);
      assert b * (target + 1) == b * target + b;
      if m <= b { MulMonotone(target, m, b); }
    }
  }
}
