/** The index sort behind first-fit decreasing: `ffd_sort_indices`. */
module FfdSort {

  /** Descending by cost, ties by ascending index. */
  function Compare(costs: seq<int>, a: nat, b: nat): int
    requires a < |costs| && b < |costs|
  {
    if costs[a] != costs[b] then (if costs[a] > costs[b] then -1 else 1)
    else if a != b then (if a < b then -1 else 1)
    else 0
  }

  ghost predicate InRange(s: seq<nat>, n: nat) { forall p :: 0 <= p < |s| ==> s[p] < n }

  ghost predicate Sorted(s: seq<nat>, costs: seq<int>) {
    && InRange(s, |costs|)
    && forall p, q :: 0 <= p < q < |s| ==> Compare(costs, s[p], s[q]) <= 0
  }

  function Identity(n: nat): (s: seq<nat>) { seq(n, i requires 0 <= i < n => i) }

  /** The order `tp_bin_assign_ffd` visits the items in. */
  ghost predicate IsVisitOrder(order: seq<nat>, costs: seq<int>) {
    multiset(order) == multiset(Identity(|costs|)) && Sorted(order, costs)
  }

  /** `out` holds the first `i` of `left` and `j` of `right`, sorted, with nothing smaller left behind. */
  ghost predicate Merging(out: seq<nat>, left: seq<nat>, i: int, right: seq<nat>, j: int, costs: seq<int>) {
    && 0 <= i <= |left| && 0 <= j <= |right|
    && Sorted(left, costs) && Sorted(right, costs) && Sorted(out, costs)
    && multiset(out) == multiset(left[..i]) + multiset(right[..j])
    && (forall p, q :: 0 <= p < |out| && i <= q < |left| ==> Compare(costs, out[p], left[q]) <= 0)
    && (forall p, q :: 0 <= p < |out| && j <= q < |right| ==> Compare(costs, out[p], right[q]) <= 0)
  }

  lemma TakeHead(out: seq<nat>, left: seq<nat>, i: int, right: seq<nat>, j: int, costs: seq<int>)
    requires Merging(out, left, i, right, j, costs) && i < |left|
    requires j == |right| || Compare(costs, left[i], right[j]) <= 0
    ensures Merging(out + [left[i]], left, i + 1, right, j, costs)
    ensures Merging(out + [left[i]], right, j, left, i + 1, costs)
  {
    var next := out + [left[i]];
    assert left[..i + 1] == left[..i] + [left[i]];
    assert forall p :: 0 <= p < |next| ==> next[p] == if p < |out| then out[p] else left[i];
  }

  /** The merge step, into a scratch array: two sorted runs become one. */
  method Merge(left: seq<nat>, right: seq<nat>, costs: seq<int>) returns (tmp: seq<nat>)
    requires Sorted(left, costs) && Sorted(right, costs)
    ensures Sorted(tmp, costs)
    ensures multiset(tmp) == multiset(left) + multiset(right) && |tmp| == |left| + |right|
  {
    var i, j := 0, 0;
    tmp := [];
    while i < |left| || j < |right|
      invariant Merging(tmp, left, i, right, j, costs) && |tmp| == i + j
      decreases |left| + |right| - i - j
    {
      if i < |left| && (j == |right| || Compare(costs, left[i], right[j]) <= 0) {
        TakeHead(tmp, left, i, right, j, costs);
        tmp := tmp + [left[i]];
        i := i + 1;
      } else {
        TakeHead(tmp, right, j, left, i, costs);
        tmp := tmp + [right[j]];
        j := j + 1;
      }
    }
    assert left[..i] == left && right[..j] == right;
  }

  /** `s` with the stretch from `lo` replaced by `t`. */
  function Overlay(s: seq<nat>, lo: nat, t: seq<nat>): (r: seq<nat>)
    requires lo + |t| <= |s|
    ensures |r| == |s|
  {
    s[..lo] + t + s[lo + |t|..]
  }

  lemma OverlayParts(s: seq<nat>, lo: nat, t: seq<nat>)
    requires lo + |t| <= |s|
    ensures var r := Overlay(s, lo, t);
            r[..lo] == s[..lo] && r[lo..lo + |t|] == t && r[lo + |t|..] == s[lo + |t|..]
  {}

  lemma OverlayTwice(s: seq<nat>, lo: nat, t: seq<nat>, u: seq<nat>)
    requires |t| <= |u| && lo + |u| <= |s|
    ensures Overlay(Overlay(s, lo, t), lo, u) == Overlay(s, lo, u)
  {
    assert Overlay(s, lo, t)[lo + |u|..] == s[lo + |u|..];
  }

  lemma OverlayPair(s: seq<nat>, lo: nat, t: seq<nat>, u: seq<nat>)
    requires lo + |t| + |u| <= |s|
    ensures Overlay(Overlay(s, lo, t), lo + |t|, u) == Overlay(s, lo, t + u)
  {
    assert Overlay(s, lo, t)[lo + |t| + |u|..] == s[lo + |t| + |u|..];
    assert Overlay(s, lo, t)[..lo + |t|] == s[..lo] + t;
  }

  lemma OverlayHalves(s: seq<nat>, lo: nat, t: seq<nat>, u: seq<nat>)
    requires lo + |t| + |u| <= |s|
    ensures var r := Overlay(s, lo, t + u);
            && r[lo..lo + |t| + |u|] == t + u
            && r[lo..lo + |t|] == t && r[lo + |t|..lo + |t| + |u|] == u
  {
    OverlayParts(s, lo, t + u);
    var r := Overlay(s, lo, t + u);
    assert r[lo..lo + |t|] == r[lo..lo + |t| + |u|][..|t|];
    assert r[lo + |t|..lo + |t| + |u|] == r[lo..lo + |t| + |u|][|t|..];
  }

  /** `now` is `was` with the stretch `[lo, hi)` put in order, as `s`. */
  ghost predicate SortsSlice(was: seq<nat>, now: seq<nat>, lo: nat, hi: nat, s: seq<nat>, costs: seq<int>) {
    && lo <= hi <= |was| && |s| == hi - lo
    && Sorted(s, costs) && multiset(s) == multiset(was[lo..hi])
    && now == Overlay(was, lo, s)
  }

  /** `memcpy` of the scratch array over `order[lo..]`. */
  method CopyBack(order: array<nat>, lo: nat, tmp: seq<nat>)
    requires lo + |tmp| <= order.Length
    modifies order
    ensures order[..] == Overlay(old(order[..]), lo, tmp)
  {
    forall p | 0 <= p < |tmp| { order[lo + p] := tmp[p]; }
  }

  lemma InsertSorted(s: seq<nat>, m: nat, key: nat, t: seq<nat>, costs: seq<int>)
    requires m <= |s| && Sorted(s, costs) && key < |costs|
    requires m > 0 ==> Compare(costs, key, s[m - 1]) >= 0
    requires forall q :: m <= q < |s| ==> Compare(costs, key, s[q]) < 0
    requires t == s[..m] + [key] + s[m..]
    ensures Sorted(t, costs)
  {
    forall p | 0 <= p < |t|
      ensures t[p] == (if p < m then s[p] else if p == m then key else s[p - 1]) < |costs| {}
    forall p, q | 0 <= p < q < |t| ensures Compare(costs, t[p], t[q]) <= 0 {
      if p < m && q == m {
        assert p == m - 1 || Compare(costs, s[p], s[m - 1]) <= 0;
      } else if p > m {
        assert Compare(costs, s[p - 1], s[q - 1]) <= 0;
      }
    }
  }

  /** The key of position `i` has moved down to `j`, past exactly the keys that come after it. */
  ghost predicate Shifted(was: seq<nat>, now: seq<nat>, lo: nat, i: nat, j: nat, costs: seq<int>) {
    && lo <= j <= i < |was| == |now|
    && was[i] < |costs| && (forall p :: lo <= p < i ==> was[p] < |costs|)
    && now[j] == was[i]
    && (forall p :: 0 <= p < |was| && (p < j || p > i) ==> now[p] == was[p])
    && (forall p :: j < p <= i ==> now[p] == was[p - 1])
    && (j > lo ==> Compare(costs, was[i], was[j - 1]) >= 0)
    && (forall q :: j <= q < i ==> Compare(costs, was[i], was[q]) < 0)
  }

  /** Moves the key at `i` down to its place in the sorted stretch `[lo, i)`. */
  method ShiftDown(order: array<nat>, lo: nat, i: nat, costs: seq<int>) returns (j: nat)
    requires lo < i < order.Length
    requires order[i] < |costs| && forall p :: lo <= p < i ==> order[p] < |costs|
    modifies order
    ensures Shifted(old(order[..]), order[..], lo, i, j, costs)
  {
    var key := order[i];
    ghost var was := order[..];
    j := i;
    while j > lo && Compare(costs, key, order[j - 1]) < 0
      invariant lo <= j <= i
      invariant forall p :: 0 <= p < order.Length && (p < j || p > i) ==> order[p] == was[p]
      invariant forall p :: j < p <= i ==> order[p] == was[p - 1]
      invariant forall q :: j <= q < i ==> Compare(costs, key, was[q]) < 0
    {
      order[j] := order[j - 1];
      j := j - 1;
    }
    order[j] := key;
  }

  function InsertedRun(was: seq<nat>, lo: nat, i: nat, j: nat): seq<nat>
    requires lo <= j <= i < |was|
  {
    was[lo..j] + [was[i]] + was[j..i]
  }

  lemma ShiftedSorted(was: seq<nat>, now: seq<nat>, lo: nat, i: nat, j: nat, costs: seq<int>)
    requires Shifted(was, now, lo, i, j, costs) && Sorted(was[lo..i], costs)
    ensures Sorted(InsertedRun(was, lo, i, j), costs)
  {
    var s := was[lo..i];
    assert s[..j - lo] == was[lo..j] && s[j - lo..] == was[j..i];
    assert forall q :: 0 <= q < |s| ==> s[q] == was[lo + q];
    InsertSorted(s, j - lo, was[i], InsertedRun(was, lo, i, j), costs);
  }

  lemma ShiftedMultiset(was: seq<nat>, lo: nat, i: nat, j: nat)
    requires lo <= j <= i < |was|
    ensures multiset(InsertedRun(was, lo, i, j)) == multiset(was[lo..i]) + multiset{was[i]}
  {
    assert was[lo..i] == was[lo..j] + was[j..i];
  }

  lemma SliceShifted(was: seq<nat>, now: seq<nat>, i: nat, j: nat)
    requires j <= i < |was| == |now| && forall p :: j < p <= i ==> now[p] == was[p - 1]
    ensures now[j + 1..i + 1] == was[j..i]
  {
    forall q | 0 <= q < i - j ensures now[j + 1..i + 1][q] == was[j..i][q] {
      assert now[j + 1..i + 1][q] == now[j + 1 + q];
    }
  }

  lemma ShiftedOverlay(was: seq<nat>, now: seq<nat>, lo: nat, i: nat, j: nat, costs: seq<int>)
    requires Shifted(was, now, lo, i, j, costs)
    ensures now == Overlay(was, lo, InsertedRun(was, lo, i, j))
  {
    assert now[..lo] == was[..lo];
    assert now[lo..j] == was[lo..j];
    SliceShifted(was, now, i, j);
    assert now[i + 1..] == was[i + 1..];
    assert now == now[..lo] + (now[lo..j] + [now[j]] + now[j + 1..i + 1]) + now[i + 1..];
  }

  method Insert(order: array<nat>, lo: nat, i: nat, costs: seq<int>) returns (ghost t: seq<nat>)
    requires lo < i < order.Length
    requires Sorted(order[lo..i], costs) && order[i] < |costs|
    modifies order
    ensures |t| == i + 1 - lo && Sorted(t, costs)
    ensures multiset(t) == multiset(old(order[lo..i])) + multiset{old(order[i])}
    ensures order[..] == Overlay(old(order[..]), lo, t)
  {
    ghost var was := order[..];
    assert was[lo..i] == order[lo..i];
    assert forall p :: lo <= p < i ==> order[p] == was[lo..i][p - lo];
    assert forall p :: lo <= p < i ==> order[p] < |costs|;
    var j := ShiftDown(order, lo, i, costs);
    t := InsertedRun(was, lo, i, j);
    hide Shifted, Sorted, Overlay, InsertedRun;
    ShiftedSorted(was, order[..], lo, i, j, costs);
    ShiftedMultiset(was, lo, i, j);
    ShiftedOverlay(was, order[..], lo, i, j, costs);
  }

  /** `s` is the sorted arrangement of the first `i - lo` indices, in place; the rest are untouched. */
  ghost predicate Progress(was: seq<nat>, now: seq<nat>, lo: nat, i: nat, hi: nat, s: seq<nat>, costs: seq<int>) {
    && lo < i <= hi <= |was| && |s| == i - lo
    && InRange(was[lo..hi], |costs|) && Sorted(s, costs)
    && multiset(s) + multiset(was[i..hi]) == multiset(was[lo..hi])
    && now == Overlay(was, lo, s)
  }

  lemma ProgressStart(was: seq<nat>, lo: nat, hi: nat, costs: seq<int>)
    requires lo < hi <= |was| && InRange(was[lo..hi], |costs|)
    ensures Progress(was, was, lo, lo + 1, hi, [was[lo]], costs)
  {
    assert was[lo..hi][0] == was[lo];
    assert was[lo..hi] == [was[lo]] + was[lo + 1..hi];
  }

  lemma ProgressNext(was: seq<nat>, now: seq<nat>, lo: nat, i: nat, hi: nat, s: seq<nat>, costs: seq<int>)
    requires Progress(was, now, lo, i, hi, s, costs) && i < hi
    ensures |now| == |was| && now[lo..i] == s && now[i] == was[i] < |costs|
  {
    OverlayParts(was, lo, s);
    assert now[i..][0] == was[i..][0] == was[lo..hi][i - lo];
  }

  lemma ProgressStep(was: seq<nat>, now: seq<nat>, lo: nat, i: nat, hi: nat, s: seq<nat>, t: seq<nat>, costs: seq<int>)
    requires Progress(was, now, lo, i, hi, s, costs) && i < hi
    requires |t| == |s| + 1 && Sorted(t, costs) && multiset(t) == multiset(s) + multiset{was[i]}
    ensures Progress(was, Overlay(now, lo, t), lo, i + 1, hi, t, costs)
  {
    OverlayTwice(was, lo, s, t);
    assert was[i..hi] == [was[i]] + was[i + 1..hi];
  }

  method InsertNext(order: array<nat>, lo: nat, i: nat, hi: nat, costs: seq<int>, ghost was: seq<nat>,
          ghost s: seq<nat>)
    returns (ghost t: seq<nat>)
    requires Progress(was, order[..], lo, i, hi, s, costs) && i < hi
    modifies order
    ensures Progress(was, order[..], lo, i + 1, hi, t, costs)
  {
    ghost var now := order[..];
    ProgressNext(was, now, lo, i, hi, s, costs);
    assert order[lo..i] == now[lo..i] && order[i] == now[i];
    t := Insert(order, lo, i, costs);
    ProgressStep(was, now, lo, i, hi, s, t, costs);
  }

  lemma ProgressDone(was: seq<nat>, now: seq<nat>, lo: nat, hi: nat, s: seq<nat>, costs: seq<int>)
    requires Progress(was, now, lo, hi, hi, s, costs)
    ensures SortsSlice(was, now, lo, hi, s, costs)
  {
    assert was[hi..hi] == [];
  }

  /** The fallback when no scratch memory can be had. */
  method InsertionSort(order: array<nat>, lo: nat, hi: nat, costs: seq<int>) returns (ghost s: seq<nat>)
    requires lo < hi <= order.Length && InRange(order[lo..hi], |costs|)
    modifies order
    ensures SortsSlice(old(order[..]), order[..], lo, hi, s, costs)
  {
    hide Progress;
    ghost var was := order[..];
    assert was[lo..hi] == order[lo..hi];
    s := [order[lo]];
    ProgressStart(was, lo, hi, costs);
    var i := lo + 1;
    while i < hi
      invariant i <= hi && Progress(was, order[..], lo, i, hi, s, costs)
    {
      s := InsertNext(order, lo, i, hi, costs, was, s);
      i := i + 1;
    }
    ProgressDone(was, order[..], lo, hi, s, costs);
  }

  /** Brings two sorted halves together, by merging or, without scratch memory, by insertion. */
  method Combine(order: array<nat>, lo: nat, mid: nat, hi: nat, costs: seq<int>, mallocFails: bool)
    returns (ghost s: seq<nat>)
    requires lo <= mid <= hi <= order.Length && lo < hi && InRange(order[lo..hi], |costs|)
    requires Sorted(order[lo..mid], costs) && Sorted(order[mid..hi], costs)
    modifies order
    ensures SortsSlice(old(order[..]), order[..], lo, hi, s, costs)
  {
    if mallocFails {
      s := InsertionSort(order, lo, hi, costs);
    } else {
      assert order[lo..hi] == order[lo..mid] + order[mid..hi];
      var tmp := Merge(order[lo..mid], order[mid..hi], costs);
      CopyBack(order, lo, tmp);
      s := tmp;
    }
  }

  /** Sorts `order[lo..hi]` in place; `mallocFails` says which calls must do without scratch memory. */
  method FfdSortIndices(order: array<nat>, lo: nat, hi: nat, costs: seq<int>, mallocFails: (nat, nat) -> bool)
    returns (ghost s: seq<nat>)
    requires lo <= hi <= order.Length && InRange(order[lo..hi], |costs|)
    modifies order
    ensures SortsSlice(old(order[..]), order[..], lo, hi, s, costs)
    decreases hi - lo
  {
    ghost var was := order[..];
    if hi - lo < 2 {
      s := order[lo..hi];
      return;
    }
    var mid := lo + (hi - lo) / 2;
    SplitSlice(was, lo, mid, hi, |costs|);
    ghost var left, right;
    hide SortsSlice, Sorted;
    left := FfdSortIndices(order, lo, mid, costs, mallocFails);
    ghost var one := order[..];
    LeftSorted(was, one, lo, mid, hi, left, costs);
    assert order[mid..hi] == one[mid..hi];
    right := FfdSortIndices(order, mid, hi, costs, mallocFails);
    ghost var both := order[..];
    BothSorted(was, one, both, lo, mid, hi, left, right, costs);
    assert order[lo..mid] == both[lo..mid] && order[mid..hi] == both[mid..hi] && order[lo..hi] == both[lo..hi];
    s := Combine(order, lo, mid, hi, costs, mallocFails(lo, hi));
    Combined(was, one, both, order[..], lo, mid, hi, left, right, s, costs);
  }

  lemma LeftSorted(was: seq<nat>, one: seq<nat>, lo: nat, mid: nat, hi: nat, left: seq<nat>, costs: seq<int>)
    requires SortsSlice(was, one, lo, mid, left, costs) && mid <= hi <= |was| && InRange(was[mid..hi], |costs|)
    ensures |one| == |was| && InRange(one[mid..hi], |costs|) && one[mid..hi] == was[mid..hi]
  {
    OverlayParts(was, lo, left);
    assert one[mid..hi] == one[mid..][..hi - mid] == was[mid..][..hi - mid] == was[mid..hi];
  }

  lemma BothSorted(was: seq<nat>, one: seq<nat>, both: seq<nat>, lo: nat, mid: nat, hi: nat,
                   left: seq<nat>, right: seq<nat>, costs: seq<int>)
    requires SortsSlice(was, one, lo, mid, left, costs) && SortsSlice(one, both, mid, hi, right, costs)
    requires one[mid..hi] == was[mid..hi] && InRange(was[lo..hi], |costs|)
    ensures both == Overlay(was, lo, left + right) && |both| == |was|
    ensures multiset(left + right) == multiset(was[lo..hi])
    ensures both[lo..hi] == left + right && InRange(left + right, |costs|)
    ensures Sorted(both[lo..mid], costs) && Sorted(both[mid..hi], costs)
  {
    OverlayPair(was, lo, left, right);
    assert multiset(left + right) == multiset(was[lo..hi]) by { assert was[lo..hi] == was[lo..mid] + was[mid..hi]; }
    SliceInRange(left + right, was[lo..hi], |costs|);
    OverlayHalves(was, lo, left, right);
  }

  lemma Combined(was: seq<nat>, one: seq<nat>, both: seq<nat>, now: seq<nat>, lo: nat, mid: nat, hi: nat,
                 left: seq<nat>, right: seq<nat>, s: seq<nat>, costs: seq<int>)
    requires lo <= mid <= hi <= |was| && |left| + |right| == hi - lo
    requires both == Overlay(was, lo, left + right) && both[lo..hi] == left + right
    requires multiset(left + right) == multiset(was[lo..hi])
    requires SortsSlice(both, now, lo, hi, s, costs)
    ensures SortsSlice(was, now, lo, hi, s, costs)
  {
    OverlayTwice(was, lo, left + right, s);
  }

  lemma SplitSlice(s: seq<nat>, lo: nat, mid: nat, hi: nat, n: nat)
    requires lo <= mid <= hi <= |s| && InRange(s[lo..hi], n)
    ensures InRange(s[lo..mid], n) && InRange(s[mid..hi], n)
  {
    forall p | 0 <= p < hi - mid ensures s[mid..hi][p] < n { assert s[mid..hi][p] == s[lo..hi][p + (mid - lo)]; }
    forall p | 0 <= p < mid - lo ensures s[lo..mid][p] < n { assert s[lo..mid][p] == s[lo..hi][p]; }
  }

  lemma SliceInRange(s: seq<nat>, t: seq<nat>, n: nat)
    requires multiset(s) == multiset(t) && InRange(t, n)
    ensures InRange(s, n)
  {
    forall p | 0 <= p < |s| ensures s[p] < n { assert s[p] in multiset(t); }
  }

  /** Only one arrangement of the same indices is sorted: the array a sort ends with does not depend on how it ran. */
  lemma {:induction false} SortedIsUnique(a: seq<nat>, b: seq<nat>, costs: seq<int>)
    requires multiset(a) == multiset(b)
    requires Sorted(a, costs) && Sorted(b, costs)
    ensures a == b
  {
    assert |a| == |multiset(a)| == |multiset(b)| == |b|;
    if a != [] {
      SameHead(a, b, costs);
      TailMultiset(a);
      TailMultiset(b);
      SortedIsUnique(a[1..], b[1..], costs);
    }
  }

  lemma TailMultiset(s: seq<nat>)
    requires s != []
    ensures multiset(s[1..]) == multiset(s) - multiset{s[0]}
  {
    assert s == [s[0]] + s[1..];
  }

  lemma SameHead(a: seq<nat>, b: seq<nat>, costs: seq<int>)
    requires multiset(a) == multiset(b) && a != [] && b != []
    requires Sorted(a, costs) && Sorted(b, costs)
    ensures a[0] == b[0]
  {
    assert a[0] in multiset(b) && b[0] in multiset(a);
    var i :| 0 <= i < |b| && b[i] == a[0];
    var j :| 0 <= j < |a| && a[j] == b[0];
    assert i == 0 || Compare(costs, b[0], a[0]) <= 0;
    assert j == 0 || Compare(costs, a[0], b[0]) <= 0;
  }

  lemma VisitOrderIsUnique(a: seq<nat>, b: seq<nat>, costs: seq<int>)
    requires IsVisitOrder(a, costs) && IsVisitOrder(b, costs)
    ensures a == b
  {
    SortedIsUnique(a, b, costs);
  }

  lemma {:induction false} IdentityCounts(n: nat, x: nat)
    ensures multiset(Identity(n))[x] == if x < n then 1 else 0
  {
    if n > 0 {
      assert Identity(n) == Identity(n - 1) + [n - 1];
      IdentityCounts(n - 1, x);
    }
  }

  /** A visit order names every item once. */
  lemma VisitOrderIsPermutation(order: seq<nat>, costs: seq<int>)
    requires IsVisitOrder(order, costs)
    ensures |order| == |costs|
    ensures forall p, q :: 0 <= p < q < |order| ==> order[p] != order[q]
    ensures forall x :: 0 <= x < |costs| ==> x in order
  {
    assert |order| == |multiset(order)| == |multiset(Identity(|costs|))| == |costs|;
    forall p, q | 0 <= p < q < |order| ensures order[p] != order[q] {
      IdentityCounts(|costs|, order[p]);
      assert order == order[..q] + [order[q]] + order[q + 1..];
      assert order[p] == order[..q][p];
      assert order[p] in multiset(order[..q]);
    }
    forall x | 0 <= x < |costs| ensures x in order {
      IdentityCounts(|costs|, x);
      assert x in multiset(order);
    }
  }
}
