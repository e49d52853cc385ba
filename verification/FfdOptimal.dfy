/** When first-fit decreasing opens as few bins as there can be, and so no more than next-fit. */
module FfdOptimal {
  import opened BinPacking
  import opened FfdSort
  import opened Ffd
  import opened Int64
  import NextFit

  // ---------------------------------------------------------------- weights

  /** What an item counts for against an item of cost `x`: 2 if the two do not fit one bin, else 1;
      an item cheaper than `x` counts for nothing. */
  function Weight(c: int, x: int, target: int): int {
    if c < x then 0 else if c + x > target then 2 else 1
  }

  function Weights(c: seq<int>, x: int, target: int): (w: seq<int>)
    ensures |w| == |c| && forall i :: 0 <= i < |c| ==> w[i] == Weight(c[i], x, target) && 0 <= w[i] <= 2
  {
    seq(|c|, i requires 0 <= i < |c| => Weight(c[i], x, target))
  }

  lemma WeightsInit(c: seq<int>, x: int, target: int)
    requires |c| > 0
    ensures Weights(c, x, target)[..|c| - 1] == Weights(c[..|c| - 1], x, target)
  {}

  /** No bin within the target holds more than a weight of 2, if `x` is above a third of the target. */
  lemma {:induction false} LightBin(c: seq<int>, asg: seq<int>, b: int, x: int, target: int)
    requires |c| == |asg| && 3 * x > target >= 1 && forall i :: 0 <= i < |c| ==> c[i] >= 0
    ensures var t, w := BinTotal(c, asg, b), BinTotal(Weights(c, x, target), asg, b);
            && t >= 0 && w >= 0 && (w >= 1 ==> t >= x) && (w >= 2 ==> t >= 2 * x || t + x > target)
            && (w >= 3 ==> t > target)
  {
    if |c| > 0 {
      LightBin(c[..|c| - 1], asg[..|c| - 1], b, x, target);
      WeightsInit(c, x, target);
    }
  }

  /** A bin of items no cheaper than `x`, without room for `x`, weighs 2 or more. */
  lemma {:induction false} HeavyBin(c: seq<int>, asg: seq<int>, b: int, x: int, target: int)
    requires |c| == |asg| && forall i :: 0 <= i < |c| && asg[i] == b ==> c[i] >= x
    ensures var t, w := BinTotal(c, asg, b), BinTotal(Weights(c, x, target), asg, b);
            w >= 0 && (w == 0 ==> t == 0) && (w == 1 ==> t + x <= target)
  {
    if |c| > 0 {
      HeavyBin(c[..|c| - 1], asg[..|c| - 1], b, x, target);
      WeightsInit(c, x, target);
    }
  }

  /** What has been put in a bin stays in it. */
  lemma {:induction false} BinTotalGrows(v: seq<int>, before: seq<int>, after: seq<int>, b: int)
    requires |v| == |before| == |after| && forall i :: 0 <= i < |v| ==> v[i] >= 0
    requires forall i :: 0 <= i < |v| && before[i] == b ==> after[i] == b
    ensures BinTotal(v, before, b) <= BinTotal(v, after, b)
  {
    if |v| > 0 { BinTotalGrows(v[..|v| - 1], before[..|v| - 1], after[..|v| - 1], b); }
  }

  // ---------------------------------------------------------------- the moment a bin is opened

  /** How many bins are open after the first `p` items. */
  function Open(costs: seq<int>, target: int, order: seq<nat>, p: nat): nat
    requires p <= |order| && InRange(order, |costs|)
  {
    |PlaceAll(costs, target, order, p).rem|
  }

  lemma {:induction false} Opening(costs: seq<int>, target: int, order: seq<nat>, p: nat, j: nat) returns (q: nat)
    requires p <= |order| && InRange(order, |costs|) && j < Open(costs, target, order, p)
    ensures 0 < q <= p && Open(costs, target, order, q - 1) == j && Open(costs, target, order, q) == j + 1
  {
    if j < Open(costs, target, order, p - 1) { q := Opening(costs, target, order, p - 1, j); } else { q := p; }
  }

  ghost predicate Visits(costs: seq<int>, target: int, order: seq<nat>) {
    target >= 1 && Positive(costs) && IsVisitOrder(order, costs)
  }

  /** After `p` items exactly those are placed, each in an open bin. */
  lemma PlacedExactly(costs: seq<int>, target: int, order: seq<nat>, p: nat, i: nat)
    requires Visits(costs, target, order) && p <= |order| && i < |costs|
    ensures var a := PlaceAll(costs, target, order, p).asg;
            (a[i] >= 0 <==> i in order[..p]) && UNPLACED <= a[i] < Open(costs, target, order, p)
  {
    var first, second := PlaceAllShape(costs, target, order, p);
  }

  /** Items placed stay where they are, and bins stay open. */
  lemma {:induction false} Stays(costs: seq<int>, target: int, order: seq<nat>, p: nat, q: nat, i: nat)
    requires Visits(costs, target, order) && p <= q <= |order| && i < |costs|
    ensures var a, z := PlaceAll(costs, target, order, p).asg, PlaceAll(costs, target, order, q).asg;
            a[i] >= 0 ==> z[i] == a[i]
    ensures Open(costs, target, order, p) <= Open(costs, target, order, q)
    decreases q
  {
    if p < q {
      Stays(costs, target, order, p, q - 1, i);
      VisitOrderIsPermutation(order, costs);
      PlacedExactly(costs, target, order, p, i);
      assert i in order[..p] ==> order[q - 1] != i;
    }
  }

  /** An item that makes a bin open is put there, and fits no bin open before. */
  lemma OpensState(costs: seq<int>, target: int, s: State, first: seq<nat>, second: seq<int>, x: nat)
    requires target >= 1 && Positive(costs) && Shape(costs, target, s, first, second) && x < |costs|
    requires |Place(s, costs, target, x).rem| == |s.rem| + 1
    ensures Place(s, costs, target, x).asg[x] == |s.rem|
    ensures forall b :: 0 <= b < |s.rem| ==>
              BinTotal(Capped(costs, target), s.asg, b) + Capped(costs, target)[x] > target
  {
    PlaceCapped(costs, target, s, first, second, x);
    forall b | 0 <= b < |s.rem| ensures BinTotal(Capped(costs, target), s.asg, b) + Capped(costs, target)[x] > target {
      assert BinState(Capped(costs, target), target, s, first, second, b);
    }
  }

  /** Items are visited from the dearest to the cheapest. */
  lemma Descending(costs: seq<int>, target: int, order: seq<nat>, p: nat, q: nat)
    requires IsVisitOrder(order, costs) && p <= q < |order|
    ensures order[p] < |costs| && order[q] < |costs|
    ensures Capped(costs, target)[order[p]] >= Capped(costs, target)[order[q]]
  {
    if p < q { assert Compare(costs, order[p], order[q]) <= 0; }
  }

  lemma PlacedDearer(costs: seq<int>, target: int, order: seq<nat>, q: nat, i: nat)
    requires Visits(costs, target, order) && 0 < q <= |order| && i < |costs|
    requires PlaceAll(costs, target, order, q - 1).asg[i] >= 0
    ensures order[q - 1] < |costs| && Capped(costs, target)[i] >= Capped(costs, target)[order[q - 1]]
  {
    PlacedExactly(costs, target, order, q - 1, i);
    var p :| 0 <= p < q - 1 && order[p] == i;
    Descending(costs, target, order, p, q - 1);
  }

  ghost predicate FullFor(costs: seq<int>, target: int, order: seq<nat>, q: nat, b: nat)
    requires 0 < q <= |order| && InRange(order, |costs|)
  {
    var c := Capped(costs, target);
    BinTotal(c, PlaceAll(costs, target, order, q - 1).asg, b) + c[order[q - 1]] > target
  }

  /** The item that opens a bin fits no bin open before. */
  lemma Opened(costs: seq<int>, target: int, order: seq<nat>, q: nat)
    requires Visits(costs, target, order) && 0 < q <= |order|
    requires Open(costs, target, order, q) == Open(costs, target, order, q - 1) + 1
    ensures order[q - 1] < |costs|
    ensures PlaceAll(costs, target, order, q).asg[order[q - 1]] == Open(costs, target, order, q - 1)
    ensures forall b: nat :: b < Open(costs, target, order, q - 1) ==> FullFor(costs, target, order, q, b)
  {
    var first, second := PlaceAllShape(costs, target, order, q - 1);
    hide Shape, Place, BinTotal, IsVisitOrder;
    assert InRange(order, |costs|);
    OpensState(costs, target, PlaceAll(costs, target, order, q - 1), first, second, order[q - 1]);
  }

  /** What a bin weighs never shrinks as items are placed. */
  lemma Kept(costs: seq<int>, target: int, order: seq<nat>, p: nat, v: seq<int>, b: nat)
    requires Visits(costs, target, order) && p <= |order| && |v| == |costs|
    requires forall i :: 0 <= i < |v| ==> v[i] >= 0
    ensures BinTotal(v, PlaceAll(costs, target, order, p).asg, b)
            <= BinTotal(v, PlaceAll(costs, target, order, |order|).asg, b)
  {
    var a, z := PlaceAll(costs, target, order, p).asg, PlaceAll(costs, target, order, |order|).asg;
    forall i | 0 <= i < |costs| && a[i] == b ensures z[i] == b { Stays(costs, target, order, p, |order|, i); }
    BinTotalGrows(v, a, z, b);
  }

  /** From then on every bin opened before weighs 2 or more against that item. */
  lemma OpenedHeavy(costs: seq<int>, target: int, order: seq<nat>, q: nat, b: nat)
    requires Visits(costs, target, order) && 0 < q <= |order| && b < Open(costs, target, order, q - 1)
    requires Open(costs, target, order, q) == Open(costs, target, order, q - 1) + 1
    ensures order[q - 1] < |costs|
    ensures var c := Capped(costs, target);
            BinTotal(Weights(c, c[order[q - 1]], target), PlaceAll(costs, target, order, |order|).asg, b) >= 2
  {
    hide PlaceAll, BinTotal, IsVisitOrder, Positive, Open, InRange, Visits;
    VisitsInRange(costs, target, order, q);
    var c, x, a := Capped(costs, target), order[q - 1], PlaceAll(costs, target, order, q - 1).asg;
    Opened(costs, target, order, q);
    assert FullFor(costs, target, order, q, b);
    forall i | 0 <= i < |costs| && a[i] == b ensures c[i] >= c[x] { PlacedDearer(costs, target, order, q, i); }
    HeavyBin(c, a, b, c[x], target);
    Kept(costs, target, order, q - 1, Weights(c, c[x], target), b);
  }

  lemma VisitsInRange(costs: seq<int>, target: int, order: seq<nat>, q: nat)
    requires Visits(costs, target, order) && 0 < q <= |order|
    ensures InRange(order, |costs|) && order[q - 1] < |costs|
  {}

  /** The opener's own bin weighs 1 or more in the end. */
  lemma OpenerCounts(costs: seq<int>, target: int, order: seq<nat>, q: nat, v: seq<int>)
    requires Visits(costs, target, order) && 0 < q <= |order| && |v| == |costs|
    requires Open(costs, target, order, q) == Open(costs, target, order, q - 1) + 1
    requires forall i :: 0 <= i < |v| ==> v[i] >= 0
    ensures order[q - 1] < |costs|
    ensures BinTotal(v, PlaceAll(costs, target, order, |order|).asg, Open(costs, target, order, q - 1))
            >= v[order[q - 1]]
  {
    Opened(costs, target, order, q);
    hide PlaceAll, BinTotal, IsVisitOrder;
    BinTotalAtLeast(v, PlaceAll(costs, target, order, q).asg, order[q - 1]);
    Kept(costs, target, order, q, v, Open(costs, target, order, q - 1));
  }

  /** Bins that outweigh all but one of as many full bins cannot be packed into fewer. */
  lemma NoFewerBins(v: seq<int>, asg: seq<int>, k: nat, packing: seq<int>, m: nat, full: nat)
    requires |v| == |asg| == |packing| && k > 0
    requires forall i :: 0 <= i < |v| ==> 0 <= asg[i] < k && 0 <= packing[i] < m
    requires SumBins(v, asg, k) > full * (k - 1)
    requires forall b :: 0 <= b < m ==> BinTotal(v, packing, b) <= full
    ensures k <= m
  {
    SumBinsIsTotal(v, asg, k);
    SumBinsIsTotal(v, packing, m);
    SumBinsAtMost(v, packing, m, full);
    if m < k { MulMonotone(full, m, k - 1); }
  }

  // ---------------------------------------------------------------- above a third

  /** If the item that opened the last bin costs more than a third of the target, no packing has fewer bins. */
  lemma OpenerAboveThird(costs: seq<int>, target: int, order: seq<nat>, q: nat, packing: seq<int>, m: nat)
    requires Visits(costs, target, order) && 0 < q <= |order| && Legal(costs, target, packing, m)
    requires Open(costs, target, order, q) == Open(costs, target, order, q - 1) + 1
    requires Open(costs, target, order, q) == Open(costs, target, order, |order|)
    requires order[q - 1] < |costs| && 3 * Capped(costs, target)[order[q - 1]] > target
    ensures Open(costs, target, order, |order|) <= m
  {
    var k, z := Open(costs, target, order, q), PlaceAll(costs, target, order, |order|).asg;
    var c := Capped(costs, target);
    var x := c[order[q - 1]];
    var w := Weights(c, x, target);
    FfdLegal(costs, target, order);
    OpenerCounts(costs, target, order, q, w);
    hide PlaceAll, IsVisitOrder;
    forall b | 0 <= b < k - 1 ensures BinTotal(w, z, b) >= 2 { OpenedHeavy(costs, target, order, q, b); }
    forall b | 0 <= b < m ensures BinTotal(w, packing, b) <= 2 {
      LegalBinCapped(costs, target, packing, b);
      LightBin(c, packing, b, x, target);
    }
    SumBinsAtLeast(w, z, k - 1, 2);
    NoFewerBins(w, z, k, packing, m, 2);
  }

  // ---------------------------------------------------------------- exactly a third

  function Both(v: seq<int>, w: seq<int>): (r: seq<int>)
    requires |v| == |w|
    ensures |r| == |v| && forall i :: 0 <= i < |v| ==> r[i] == 2 * v[i] + w[i]
  {
    seq(|v|, i requires 0 <= i < |v| => 2 * v[i] + w[i])
  }

  lemma {:induction false} BothTotal(v: seq<int>, w: seq<int>, asg: seq<int>, b: int)
    requires |v| == |w| == |asg|
    ensures BinTotal(Both(v, w), asg, b) == 2 * BinTotal(v, asg, b) + BinTotal(w, asg, b)
  {
    if |v| > 0 {
      var n := |v| - 1;
      BothTotal(v[..n], w[..n], asg[..n], b);
      assert Both(v, w)[..n] == Both(v[..n], w[..n]);
    }
  }

  /** In thirds `h` of the target, with no item below a third: three thirds leave no room for anything else. */
  lemma {:induction false} ThirdsBin(c: seq<int>, asg: seq<int>, b: int, h: int, y: int)
    requires |c| == |asg| && 1 <= h < y && forall i :: 0 <= i < |c| ==> c[i] >= h
    ensures var t, w, u := BinTotal(c, asg, b), BinTotal(Weights(c, h, 3 * h), asg, b),
                           BinTotal(Weights(c, y, 3 * h), asg, b);
            && w >= 0 && u >= 0 && (w == 0 ==> t == u == 0) && (w >= 1 ==> t >= h) && (w >= 2 ==> t >= 2 * h)
            && (w >= 3 ==> t >= 3 * h) && (w >= 4 ==> t > 3 * h)
            && (u >= 1 ==> t > h) && (u >= 1 && w >= 2 ==> t > 2 * h) && (u >= 1 && w >= 3 ==> t > 3 * h)
  {
    if |c| > 0 {
      ThirdsBin(c[..|c| - 1], asg[..|c| - 1], b, h, y);
      WeightsInit(c, h, 3 * h);
      WeightsInit(c, y, 3 * h);
    }
  }

  /** So no bin within the target weighs more than 6 when thirds count double. */
  lemma ThirdsLight(c: seq<int>, asg: seq<int>, b: int, h: int, y: int)
    requires |c| == |asg| && 1 <= h < y && forall i :: 0 <= i < |c| ==> c[i] >= h
    requires BinTotal(c, asg, b) <= 3 * h
    ensures BinTotal(Both(Weights(c, h, 3 * h), Weights(c, y, 3 * h)), asg, b) <= 6
  {
    ThirdsBin(c, asg, b, h, y);
    LightBin(c, asg, b, y, 3 * h);
    BothTotal(Weights(c, h, 3 * h), Weights(c, y, 3 * h), asg, b);
  }

  /** A bin with nothing but thirds in it, and no room for another, has three. */
  lemma OnlyThirds(c: seq<int>, asg: seq<int>, b: int, h: int)
    requires |c| == |asg| && h >= 1 && forall i :: 0 <= i < |c| && asg[i] == b ==> c[i] == h
    requires BinTotal(c, asg, b) > 2 * h
    ensures BinTotal(Weights(c, h, 3 * h), asg, b) >= 3
  {
    var w := Weights(c, h, 3 * h);
    var v := seq(|c|, i requires 0 <= i < |c| => h * w[i]);
    BinTotalSame(c, v, asg, b);
    BinTotalScaled(v, w, 1, h, asg, b);
    if BinTotal(w, asg, b) <= 2 { MulMonotone(h, BinTotal(w, asg, b), 2); }
  }

  /** Item `order[q - 1]`, a third `h` of the target, opened the last bin; the `a` items before are dearer. */
  ghost predicate LastIsThird(costs: seq<int>, target: int, order: seq<nat>, q: nat, h: int, a: nat) {
    && Visits(costs, target, order) && 0 < q <= |order| && a <= |order| && target == 3 * h
    && Open(costs, target, order, q) == Open(costs, target, order, q - 1) + 1 == Open(costs, target, order, |order|)
    && (forall i :: 0 <= i < |costs| ==> Capped(costs, target)[i] >= h)
    && (forall p :: 0 <= p < |order| ==> (Capped(costs, target)[order[p]] > h <==> p < a))
    && Capped(costs, target)[order[q - 1]] == h
  }

  lemma {:induction false} Dearer(costs: seq<int>, target: int, order: seq<nat>, h: int, p: nat) returns (a: nat)
    requires IsVisitOrder(order, costs) && p <= |order|
    ensures a <= p && forall i :: 0 <= i < p ==> (Capped(costs, target)[order[i]] > h <==> i < a)
  {
    if p == 0 { return 0; }
    a := Dearer(costs, target, order, h, p - 1);
    if Capped(costs, target)[order[p - 1]] > h {
      forall i | 0 <= i < p ensures Capped(costs, target)[order[i]] > h { Descending(costs, target, order, i, p - 1); }
      a := p;
    }
  }

  /** Bins opened after the dearer items hold thirds only. */
  lemma LateBin(costs: seq<int>, target: int, order: seq<nat>, q: nat, h: int, a: nat, i: nat)
    requires LastIsThird(costs, target, order, q, h, a) && i < |costs|
    requires PlaceAll(costs, target, order, q - 1).asg[i] >= Open(costs, target, order, a)
    ensures Capped(costs, target)[i] == h
  {
    hide PlaceAll, IsVisitOrder, Open;
    VisitOrderIsPermutation(order, costs);
    assert i in order;
    var p :| 0 <= p < |order| && order[p] == i;
    if p < a {
      assert i == order[..a][p];
      PlacedExactly(costs, target, order, a, i);
      if a <= q - 1 { Stays(costs, target, order, a, q - 1, i); }
    }
  }

  lemma LateBinTotal(costs: seq<int>, target: int, order: seq<nat>, q: nat, h: int, a: nat, b: nat)
    requires LastIsThird(costs, target, order, q, h, a) && b < Open(costs, target, order, q - 1)
    ensures h >= 1 && BinTotal(Capped(costs, target), PlaceAll(costs, target, order, q - 1).asg, b) > 2 * h
  {
    assert InRange(order, |costs|);
    hide PlaceAll, BinTotal, Capped, IsVisitOrder;
    Opened(costs, target, order, q);
    assert FullFor(costs, target, order, q, b);
  }

  lemma LateBinFills(costs: seq<int>, target: int, order: seq<nat>, q: nat, h: int, a: nat, b: nat)
    requires LastIsThird(costs, target, order, q, h, a)
    requires Open(costs, target, order, a) <= b < Open(costs, target, order, q - 1)
    ensures BinTotal(Weights(Capped(costs, target), h, 3 * h), PlaceAll(costs, target, order, q - 1).asg, b) >= 3
  {
    var c, s := Capped(costs, target), PlaceAll(costs, target, order, q - 1).asg;
    LateBinTotal(costs, target, order, q, h, a, b);
    forall i | 0 <= i < |costs| && s[i] == b ensures c[i] == h { LateBin(costs, target, order, q, h, a, i); }
    hide *;
    OnlyThirds(c, s, b, h);
  }

  lemma ThirdFacts(costs: seq<int>, target: int, order: seq<nat>, q: nat, h: int, a: nat)
    requires LastIsThird(costs, target, order, q, h, a)
    ensures Visits(costs, target, order) && 0 < q <= |order| && a <= |order| && target == 3 * h >= 3
    ensures InRange(order, |costs|) && order[q - 1] < |costs| && Capped(costs, target)[order[q - 1]] == h
    ensures Open(costs, target, order, q) == Open(costs, target, order, q - 1) + 1
    ensures Open(costs, target, order, q) == Open(costs, target, order, |order|)
  {
    hide PlaceAll, Open;
  }

  lemma LateBinHasThree(costs: seq<int>, target: int, order: seq<nat>, q: nat, h: int, a: nat, b: nat)
    requires LastIsThird(costs, target, order, q, h, a)
    requires Open(costs, target, order, a) <= b < Open(costs, target, order, q - 1)
    ensures BinTotal(Weights(Capped(costs, target), h, target), PlaceAll(costs, target, order, |order|).asg, b) >= 3
  {
    hide *;
    ThirdFacts(costs, target, order, q, h, a);
    LateBinFills(costs, target, order, q, h, a, b);
    Kept(costs, target, order, q - 1, Weights(Capped(costs, target), h, target), b);
  }

  /** `y` is the cost of the item that opened the last bin before the thirds, or more than any if there is none. */
  ghost predicate LastDearer(costs: seq<int>, target: int, order: seq<nat>, a: nat, e: nat, y: int)
    requires a <= |order| && InRange(order, |costs|)
  {
    var n := Open(costs, target, order, a);
    if n == 0 then y == target + 1
    else && 0 < e <= a && y == Capped(costs, target)[order[e - 1]]
         && Open(costs, target, order, e) == n == Open(costs, target, order, e - 1) + 1
  }

  lemma DearerFacts(costs: seq<int>, target: int, order: seq<nat>, a: nat, e: nat, y: int)
    requires a <= |order| && InRange(order, |costs|) && LastDearer(costs, target, order, a, e, y)
    requires Open(costs, target, order, a) > 0
    ensures 0 < e <= a && order[e - 1] < |costs| && y == Capped(costs, target)[order[e - 1]]
    ensures Open(costs, target, order, e) == Open(costs, target, order, a) == Open(costs, target, order, e - 1) + 1
  {
    hide PlaceAll, Open;
  }

  /** What the bins but the last weigh in the end against a third, */
  lemma WeightOfThirds(costs: seq<int>, target: int, order: seq<nat>, q: nat, h: int, a: nat, b: nat)
    requires LastIsThird(costs, target, order, q, h, a) && b < Open(costs, target, order, q - 1)
    ensures BinTotal(Weights(Capped(costs, target), h, target), PlaceAll(costs, target, order, |order|).asg, b)
            >= if b < Open(costs, target, order, a) then 2 else 3
  {
    hide *;
    ThirdFacts(costs, target, order, q, h, a);
    OpenedHeavy(costs, target, order, q, b);
    if b >= Open(costs, target, order, a) { LateBinHasThree(costs, target, order, q, h, a, b); }
  }

  /** and against the cheapest of the dearer openers. */
  lemma WeightOfDearer(costs: seq<int>, target: int, order: seq<nat>, a: nat, e: nat, y: int, b: nat)
    requires Visits(costs, target, order) && a <= |order| && LastDearer(costs, target, order, a, e, y)
    requires b < Open(costs, target, order, a)
    ensures BinTotal(Weights(Capped(costs, target), y, target), PlaceAll(costs, target, order, |order|).asg, b)
            >= if b + 1 < Open(costs, target, order, a) then 2 else 1
  {
    assert InRange(order, |costs|);
    hide PlaceAll, BinTotal, Capped, IsVisitOrder, Open, LastDearer, InRange, Positive;
    DearerFacts(costs, target, order, a, e, y);
    if b + 1 < Open(costs, target, order, a) { OpenedHeavy(costs, target, order, e, b); }
    else { OpenerCounts(costs, target, order, e, Weights(Capped(costs, target), y, target)); }
  }

  lemma BinWeight(costs: seq<int>, target: int, order: seq<nat>, q: nat, h: int, a: nat, e: nat, y: int, b: nat)
    requires LastIsThird(costs, target, order, q, h, a) && LastDearer(costs, target, order, a, e, y)
    requires b < Open(costs, target, order, q - 1)
    ensures var c, z := Capped(costs, target), PlaceAll(costs, target, order, |order|).asg;
            BinTotal(Both(Weights(c, h, target), Weights(c, y, target)), z, b)
            >= if b + 1 == Open(costs, target, order, a) then 5 else 6
  {
    hide *;
    ThirdFacts(costs, target, order, q, h, a);
    var c, z := Capped(costs, target), PlaceAll(costs, target, order, |order|).asg;
    var w, u := Weights(c, h, target), Weights(c, y, target);
    BothTotal(w, u, z, b);
    BinTotalNonNegative(u, z, b);
    WeightOfThirds(costs, target, order, q, h, a, b);
    if b < Open(costs, target, order, a) { WeightOfDearer(costs, target, order, a, e, y, b); }
  }

  lemma {:induction false} AlmostFull(v: seq<int>, asg: seq<int>, k: nat, n: nat)
    requires |v| == |asg| && forall b: nat :: b < k ==> BinTotal(v, asg, b) >= if b + 1 == n then 5 else 6
    ensures SumBins(v, asg, k) >= 6 * k - if 0 < n <= k then 1 else 0
  {
    if k > 0 { AlmostFull(v, asg, k - 1, n); }
  }

  lemma LegalThirds(costs: seq<int>, packing: seq<int>, m: nat, h: int, y: int)
    requires Legal(costs, 3 * h, packing, m) && 1 <= h < y
    requires forall i :: 0 <= i < |costs| ==> Capped(costs, 3 * h)[i] >= h
    ensures var c := Capped(costs, 3 * h);
            forall b :: 0 <= b < m ==> BinTotal(Both(Weights(c, h, 3 * h), Weights(c, y, 3 * h)), packing, b) <= 6
  {
    var c := Capped(costs, 3 * h);
    hide Capped, BinTotal;
    forall b | 0 <= b < m ensures BinTotal(Both(Weights(c, h, 3 * h), Weights(c, y, 3 * h)), packing, b) <= 6 {
      LegalBinCapped(costs, 3 * h, packing, b);
      ThirdsLight(c, packing, b, h, y);
    }
  }

  lemma BinsWeigh(costs: seq<int>, target: int, order: seq<nat>, q: nat, h: int, a: nat, e: nat, y: int, k: nat)
    requires LastIsThird(costs, target, order, q, h, a) && LastDearer(costs, target, order, a, e, y) && y > h
    requires k == Open(costs, target, order, |order|)
    ensures k > 0
    ensures var c := Capped(costs, target);
            var v := Both(Weights(c, h, target), Weights(c, y, target));
            SumBins(v, PlaceAll(costs, target, order, |order|).asg, k) > 6 * (k - 1)
  {
    hide PlaceAll, BinTotal, IsVisitOrder, Capped, Positive, LastDearer, LastIsThird, Visits, Open, InRange;
    ThirdFacts(costs, target, order, q, h, a);
    var z, c, n := PlaceAll(costs, target, order, |order|).asg, Capped(costs, target), Open(costs, target, order, a);
    var v := Both(Weights(c, h, target), Weights(c, y, target));
    OpenerCounts(costs, target, order, q, v);
    forall b: nat | b < k - 1 ensures BinTotal(v, z, b) >= if b + 1 == n then 5 else 6 {
      BinWeight(costs, target, order, q, h, a, e, y, b);
    }
    AlmostFull(v, z, k - 1, n);
  }

  /** If the item that opened the last bin is exactly a third and no item is cheaper, no packing has fewer bins. */
  lemma OpenerIsThird(costs: seq<int>, target: int, order: seq<nat>, q: nat, h: int, a: nat, e: nat, y: int,
                      packing: seq<int>, m: nat)
    requires LastIsThird(costs, target, order, q, h, a) && LastDearer(costs, target, order, a, e, y) && y > h
    requires Legal(costs, target, packing, m)
    ensures Open(costs, target, order, |order|) <= m
  {
    hide PlaceAll, BinTotal, IsVisitOrder, Capped, Positive, LastDearer, InRange;
    ThirdFacts(costs, target, order, q, h, a);
    var z, c := PlaceAll(costs, target, order, |order|).asg, Capped(costs, target);
    var v := Both(Weights(c, h, target), Weights(c, y, target));
    FfdLegal(costs, target, order);
    BinsWeigh(costs, target, order, q, h, a, e, y, Open(costs, target, order, |order|));
    LegalThirds(costs, packing, m, h, y);
    NoFewerBins(v, z, Open(costs, target, order, |order|), packing, m, 6);
  }

  // ---------------------------------------------------------------- results

  /** With no item below a third of the target, first-fit decreasing opens as few bins as any legal packing. */
  lemma FfdOptimalFromThird(costs: seq<int>, target: int, order: seq<nat>, packing: seq<int>, m: nat)
    requires target >= 1 && Positive(costs) && IsVisitOrder(order, costs) && Legal(costs, target, packing, m)
    requires forall i :: 0 <= i < |costs| ==> 3 * costs[i] >= target
    ensures |PlaceAll(costs, target, order, |order|).rem| <= m
  {
    var k, c := Open(costs, target, order, |order|), Capped(costs, target);
    if k == 0 { return; }
    var q := Opening(costs, target, order, |order|, k - 1);
    var x := c[order[q - 1]];
    if 3 * x > target {
      OpenerAboveThird(costs, target, order, q, packing, m);
    } else {
      var a := Dearer(costs, target, order, x, |order|);
      var e := LastOpening(costs, target, order, a);
      hide PlaceAll;
      assert LastIsThird(costs, target, order, q, x, a);
      var y := if Open(costs, target, order, a) == 0 then target + 1 else c[order[e - 1]];
      OpenerIsThird(costs, target, order, q, x, a, e, y, packing, m);
    }
  }

  lemma LastOpening(costs: seq<int>, target: int, order: seq<nat>, a: nat) returns (e: nat)
    requires a <= |order| && InRange(order, |costs|)
    ensures var n := Open(costs, target, order, a);
            n > 0 ==> && 0 < e <= a
                      && Open(costs, target, order, e) == n && Open(costs, target, order, e - 1) == n - 1
  {
    var n := Open(costs, target, order, a);
    e := 0;
    if n > 0 { e := Opening(costs, target, order, a, n - 1); }
  }

  /** So it then needs no more bins than next-fit, whose loads must not overflow. */
  lemma FfdNotAboveNextFit(costs: seq<int>, target: int, order: seq<nat>)
    requires target >= 1 && Positive(costs) && IsVisitOrder(order, costs) && NextFit.NoOverflow(costs, target)
    requires forall i :: 0 <= i < |costs| ==> 3 * costs[i] >= target
    ensures |PlaceAll(costs, target, order, |order|).rem| <= NextFit.Run64(costs, target).bins
  {
    NextFit.ExactWithoutOverflow(costs, target);
    NextFit.NextFitLegal(costs, target);
    var s := NextFit.Run(costs, target);
    FfdOptimalFromThird(costs, target, order, s.asg, s.bins);
  }

  /** And whatever the items cost, at most three for every two of next-fit. */
  lemma FfdAgainstNextFit(costs: seq<int>, target: int, order: seq<nat>)
    requires target >= 1 && Positive(costs) && IsVisitOrder(order, costs) && NextFit.NoOverflow(costs, target)
    ensures 2 * |PlaceAll(costs, target, order, |order|).rem| <= 3 * NextFit.Run64(costs, target).bins
  {
    NextFit.ExactWithoutOverflow(costs, target);
    NextFit.NextFitLegal(costs, target);
    var s := NextFit.Run(costs, target);
    FfdWithinThreeHalves(costs, target, order, s.asg, s.bins);
  }

  ghost predicate AtMostThreeForTwo(target: int) {
    forall costs, order :: Positive(costs) && IsVisitOrder(order, costs) ==>
      2 * |PlaceAll(costs, target, order, |order|).rem| <= 3 * NextFit.Run64(costs, target).bins
  }

  /** A target holds this on all costs exactly if it is at most half the largest 64-bit number. */
  lemma FfdAgainstNextFitExactly(target: int)
    requires 1 <= target <= INT64_MAX
    ensures AtMostThreeForTwo(target) <==> 2 * target <= INT64_MAX
  {
    if 2 * target <= INT64_MAX {
      forall costs, order | Positive(costs) && IsVisitOrder(order, costs)
        ensures 2 * |PlaceAll(costs, target, order, |order|).rem| <= 3 * NextFit.Run64(costs, target).bins
      {
        NextFit.SmallTargetNoOverflow(costs, target);
        FfdAgainstNextFit(costs, target, order);
      }
    } else {
      TwoLarge([target, target], target, target, [0, 1]);
    }
  }

  /** Two items whose sum wraps round: next-fit puts both in one bin, first-fit decreasing in two. */
  lemma TwoLarge(costs: seq<int>, x: int, target: int, order: seq<nat>)
    requires costs == [x, x] && order == [0, 1] && 1 <= x <= target <= INT64_MAX < 2 * x
    ensures Positive(costs) && IsVisitOrder(order, costs)
    ensures |PlaceAll(costs, target, order, 2).rem| == 2 && NextFit.Run64(costs, target).bins == 1
  {
    assert Identity(2) == [0, 1];
    assert PlaceAll(costs, target, order, 0).rem == [];
    assert PlaceAll(costs, target, order, 1).rem == [target - x];
    assert [x, x][..1] == [x] && [x][..0] == [];
    assert NextFit.Run64([x], target) == NextFit.State([0], 1, true, x);
  }
}
