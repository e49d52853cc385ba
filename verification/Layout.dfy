/** How `tp_pack_multi` divides the objects to store into packs: two classes, bins, and a counting sort. */
module Layout {
  import opened Types
  import opened BinPacking
  import opened FfdSort
  import opened Sizes
  import opened Int64
  import NextFit
  import Ffd

  datatype Algo = NextFitAlgo | FfdAlgo

  /** The members of bin `b`, in input order. */
  function Bucket<T>(s: seq<T>, asg: seq<int>, b: int): (r: seq<T>)
    requires |s| == |asg|
    ensures |r| == BinCount(asg, b)
  {
    if |s| == 0 then []
    else
      var n := |s| - 1;
      assert Ones(|asg|)[..n] == Ones(n);
      if asg[n] == b then Bucket(s[..n], asg[..n], b) + [s[n]] else Bucket(s[..n], asg[..n], b)
  }

  function Buckets<T>(s: seq<T>, asg: seq<int>, k: nat): (r: seq<seq<T>>)
    requires |s| == |asg|
    ensures |r| == k && forall b :: 0 <= b < k ==> r[b] == Bucket(s, asg, b)
  {
    seq(k, b => Bucket(s, asg, b))
  }

  function Concat<T>(runs: seq<seq<T>>): seq<T> {
    if |runs| == 0 then [] else Concat(runs[..|runs| - 1]) + runs[|runs| - 1]
  }

  function Costs(objs: seq<Obj>): (c: seq<int>)
    ensures |c| == |objs| && forall i :: 0 <= i < |c| ==> c[i] == EstimateEntryCost(|objs[i].data|)
  {
    seq(|objs|, i requires 0 <= i < |objs| => EstimateEntryCost(|objs[i].data|))
  }

  // ---------------------------------------------------------------- counting sort

  /** Where the run of bin `b` starts: all members of the bins before it. */
  function Offset(asg: seq<int>, b: nat): int { SumBins(Ones(|asg|), asg, b) }

  lemma BucketAppend<T>(s: seq<T>, asg: seq<int>, x: T, a: int, b: int)
    requires |s| == |asg|
    ensures Bucket(s + [x], asg + [a], b) == if a == b then Bucket(s, asg, b) + [x] else Bucket(s, asg, b)
  {
    assert (s + [x])[..|s|] == s && (asg + [a])[..|s|] == asg;
  }

  lemma CountAppend(asg: seq<int>, a: int, b: int)
    ensures BinCount(asg + [a], b) == BinCount(asg, b) + (if a == b then 1 else 0)
  {
    assert Ones(|asg| + 1) == Ones(|asg|) + [1];
    BinTotalAppend(Ones(|asg|), asg, 1, a, b);
  }

  lemma {:induction false} CountPrefix(asg: seq<int>, i: nat, b: int)
    requires i <= |asg|
    ensures 0 <= BinCount(asg[..i], b) <= BinCount(asg, b)
    decreases |asg|
  {
    BinTotalNonNegative(Ones(i), asg[..i], b);
    if i < |asg| {
      var n := |asg| - 1;
      CountPrefix(asg[..n], i, b);
      assert asg[..n][..i] == asg[..i];
      assert asg == asg[..n] + [asg[n]];
      CountAppend(asg[..n], asg[n], b);
    } else {
      assert asg[..i] == asg;
    }
  }

  lemma {:induction false} OffsetMonotone(asg: seq<int>, b: nat, c: nat)
    requires b <= c
    ensures 0 <= Offset(asg, b) <= Offset(asg, c)
    ensures b < c ==> Offset(asg, b) + BinCount(asg, b) <= Offset(asg, c)
    decreases c
  {
    BinTotalNonNegative(Ones(|asg|), asg, c - 1);
    if b < c {
      OffsetMonotone(asg, b, c - 1);
    } else if b > 0 {
      OffsetMonotone(asg, b - 1, b - 1);
      BinTotalNonNegative(Ones(|asg|), asg, b - 1);
    }
  }

  lemma {:induction false} TotalOnes(n: nat)
    ensures Total(Ones(n)) == n
  {
    if n > 0 {
      assert Ones(n)[..n - 1] == Ones(n - 1);
      TotalOnes(n - 1);
    }
  }

  lemma OffsetEnd(asg: seq<int>, k: nat)
    requires forall i :: 0 <= i < |asg| ==> 0 <= asg[i] < k
    ensures Offset(asg, k) == |asg|
  {
    SumBinsIsTotal(Ones(|asg|), asg, k);
    TotalOnes(|asg|);
  }

  /** After the first `i` items every run holds, from its start, the bin's members among them. */
  ghost predicate Filled<T>(out: seq<T>, s: seq<T>, asg: seq<int>, k: nat, i: nat) {
    && |out| == |s| == |asg| && i <= |s|
    && (forall j :: 0 <= j < |asg| ==> 0 <= asg[j] < k)
    && (forall b :: 0 <= b < k ==> RunFilled(out, s, asg, b, i))
  }

  ghost predicate RunFilled<T>(out: seq<T>, s: seq<T>, asg: seq<int>, b: nat, i: nat)
    requires |out| == |s| == |asg| && i <= |s|
  {
    var from := Offset(asg, b);
    var to := from + BinCount(asg[..i], b);
    0 <= from <= to <= |out| && out[from..to] == Bucket(s[..i], asg[..i], b)
  }

  lemma FilledStart<T>(out: seq<T>, s: seq<T>, asg: seq<int>, k: nat)
    requires |out| == |s| == |asg| && forall j :: 0 <= j < |asg| ==> 0 <= asg[j] < k
    ensures Filled(out, s, asg, k, 0)
  {
    forall b | 0 <= b < k ensures RunFilled(out, s, asg, b, 0) {
      OffsetMonotone(asg, b, k);
      OffsetEnd(asg, k);
    }
  }

  /** Where item `i` goes: behind the bin's members before it, and short of the next run. */
  lemma NextSlot(asg: seq<int>, k: nat, i: nat, b: nat)
    requires i < |asg| && forall j :: 0 <= j < |asg| ==> 0 <= asg[j] < k
    requires b < k
    ensures BinCount(asg[..i + 1], b) == BinCount(asg[..i], b) + (if asg[i] == b then 1 else 0)
    ensures 0 <= Offset(asg, b) && 0 <= BinCount(asg[..i], b)
    ensures Offset(asg, b) + BinCount(asg[..i + 1], b) <= Offset(asg, b + 1) <= |asg|
  {
    assert asg[..i + 1] == asg[..i] + [asg[i]];
    CountAppend(asg[..i], asg[i], b);
    CountPrefix(asg, i + 1, b);
    CountPrefix(asg, i, b);
    OffsetMonotone(asg, b, b + 1);
    OffsetMonotone(asg, b + 1, k);
    OffsetEnd(asg, k);
  }

  lemma FillOwn<T>(out: seq<T>, s: seq<T>, asg: seq<int>, k: nat, i: nat)
    requires Filled(out, s, asg, k, i) && i < |s|
    ensures var c := Offset(asg, asg[i]) + BinCount(asg[..i], asg[i]);
            0 <= c < |out| && RunFilled(out[c := s[i]], s, asg, asg[i], i + 1)
  {
    var a := asg[i];
    NextSlot(asg, k, i, a);
    assert RunFilled(out, s, asg, a, i);
    var from := Offset(asg, a);
    var c := from + BinCount(asg[..i], a);
    assert s[..i + 1] == s[..i] + [s[i]] && asg[..i + 1] == asg[..i] + [a];
    BucketAppend(s[..i], asg[..i], s[i], a, a);
    assert out[c := s[i]][from..c + 1] == out[from..c] + [s[i]];
  }

  lemma FillOther<T>(out: seq<T>, s: seq<T>, asg: seq<int>, k: nat, i: nat, b: nat)
    requires Filled(out, s, asg, k, i) && i < |s| && b < k && b != asg[i]
    ensures var c := Offset(asg, asg[i]) + BinCount(asg[..i], asg[i]);
            0 <= c < |out| && RunFilled(out[c := s[i]], s, asg, b, i + 1)
  {
    var a := asg[i];
    NextSlot(asg, k, i, a);
    NextSlot(asg, k, i, b);
    assert RunFilled(out, s, asg, b, i);
    var c := Offset(asg, a) + BinCount(asg[..i], a);
    if a < b { OffsetMonotone(asg, a + 1, b); } else { OffsetMonotone(asg, b + 1, a); }
    hide Offset, BinCount;
    assert s[..i + 1] == s[..i] + [s[i]] && asg[..i + 1] == asg[..i] + [a];
    BucketAppend(s[..i], asg[..i], s[i], a, b);
    var from := Offset(asg, b);
    var to := from + BinCount(asg[..i], b);
    SetOutside(out, c, s[i], from, to);
  }

  lemma SetOutside<T>(out: seq<T>, c: nat, x: T, from: nat, to: nat)
    requires c < |out| && from <= to <= |out| && (c < from || to <= c)
    ensures out[c := x][from..to] == out[from..to]
  {}

  lemma FillStep<T>(out: seq<T>, s: seq<T>, asg: seq<int>, k: nat, i: nat)
    requires Filled(out, s, asg, k, i) && i < |s|
    ensures var c := Offset(asg, asg[i]) + BinCount(asg[..i], asg[i]);
            0 <= c < |out| && Filled(out[c := s[i]], s, asg, k, i + 1)
  {
    FillOwn(out, s, asg, k, i);
    var c := Offset(asg, asg[i]) + BinCount(asg[..i], asg[i]);
    var next, done := out[c := s[i]], i + 1;
    forall b | 0 <= b < k ensures RunFilled(next, s, asg, b, done) {
      if b != asg[i] { FillOther(out, s, asg, k, i, b); }
    }
  }

  /** Members per bin. */
  method BinSizes(asg: seq<int>, k: nat) returns (sizes: array<int>)
    requires forall j :: 0 <= j < |asg| ==> 0 <= asg[j] < k
    ensures fresh(sizes) && sizes.Length == k
    ensures forall b :: 0 <= b < k ==> sizes[b] == BinCount(asg, b)
  {
    sizes := new int[k](_ => 0);
    for i := 0 to |asg|
      invariant forall b :: 0 <= b < k ==> sizes[b] == BinCount(asg[..i], b)
    {
      assert asg[..i + 1] == asg[..i] + [asg[i]];
      forall b | 0 <= b < k
        ensures BinCount(asg[..i + 1], b) == BinCount(asg[..i], b) + (if asg[i] == b then 1 else 0)
      { CountAppend(asg[..i], asg[i], b); }
      sizes[asg[i]] := sizes[asg[i]] + 1;
    }
    assert asg[..|asg|] == asg;
  }

  /** The start of every run, and the end of the last. */
  method BinOffsets(asg: seq<int>, k: nat, sizes: array<int>) returns (offsets: array<int>, running: int)
    requires sizes.Length == k && forall b :: 0 <= b < k ==> sizes[b] == BinCount(asg, b)
    ensures fresh(offsets) && offsets.Length == k && running == Offset(asg, k)
    ensures forall b :: 0 <= b < k ==> offsets[b] == Offset(asg, b)
  {
    offsets := new int[k];
    running := 0;
    for b := 0 to k
      invariant running == Offset(asg, b)
      invariant forall c :: 0 <= c < b ==> offsets[c] == Offset(asg, c)
    {
      offsets[b] := running;
      running := running + sizes[b];
    }
  }

  /** Writes every object behind those already in its bin's run. */
  method FillRuns<T(0)>(s: seq<T>, asg: seq<int>, k: nat, cursor: array<int>) returns (out: array<T>)
    requires |s| == |asg| && forall j :: 0 <= j < |asg| ==> 0 <= asg[j] < k
    requires cursor.Length == k && forall b :: 0 <= b < k ==> cursor[b] == Offset(asg, b)
    modifies cursor
    ensures fresh(out) && Filled(out[..], s, asg, k, |s|)
  {
    out := new T[|s|];
    FilledStart(out[..], s, asg, k);
    for i := 0 to |s|
      invariant Filled(out[..], s, asg, k, i)
      invariant forall b :: 0 <= b < k ==> cursor[b] == Offset(asg, b) + BinCount(asg[..i], b)
    {
      hide Filled, Offset, BinCount;
      FillStep(out[..], s, asg, k, i);
      forall b | 0 <= b < k
        ensures BinCount(asg[..i + 1], b) == BinCount(asg[..i], b) + (if asg[i] == b then 1 else 0)
      { NextSlot(asg, k, i, b); }
      ghost var was := out[..];
      var b := asg[i];
      out[cursor[b]] := s[i];
      assert out[..] == was[cursor[b] := s[i]];
      cursor[b] := cursor[b] + 1;
    }
  }

  /** The run of bin `b`, from its offset to the next one's. */
  function RunAt<T>(out: seq<T>, offsets: seq<int>, b: nat): (r: seq<T>)
    requires b < |offsets| && 0 <= offsets[b] <= |out|
    requires b + 1 < |offsets| ==> offsets[b] <= offsets[b + 1] <= |out|
  {
    out[offsets[b]..if b + 1 < |offsets| then offsets[b + 1] else |out|]
  }

  /** Brings the objects of each bin together, in bin order, keeping the order inside each bin. */
  method CountingSort<T(0)>(s: seq<T>, asg: seq<int>, k: nat) returns (out: array<T>, offsets: array<int>)
    requires |s| == |asg| && forall j :: 0 <= j < |asg| ==> 0 <= asg[j] < k
    ensures out.Length == |s| && offsets.Length == k
    ensures k > 0 ==> offsets[0] == 0
    ensures forall b :: 0 <= b < k ==> 0 <= offsets[b] <= |s| && (b + 1 < k ==> offsets[b] <= offsets[b + 1])
    ensures forall b :: 0 <= b < k ==> RunAt(out[..], offsets[..], b) == Bucket(s, asg, b)
  {
    var sizes := BinSizes(asg, k);
    var running;
    offsets, running := BinOffsets(asg, k, sizes);
    var cursor := new int[k](b requires 0 <= b < k reads offsets => if b < offsets.Length then offsets[b] else 0);
    out := FillRuns(s, asg, k, cursor);
    FinishedRuns(out[..], s, asg, k, offsets[..]);
  }

  lemma FinishedRuns<T>(out: seq<T>, s: seq<T>, asg: seq<int>, k: nat, offsets: seq<int>)
    requires Filled(out, s, asg, k, |s|)
    requires |offsets| == k && forall b :: 0 <= b < k ==> offsets[b] == Offset(asg, b)
    ensures forall b :: 0 <= b < k ==> 0 <= offsets[b] <= |s| && (b + 1 < k ==> offsets[b] <= offsets[b + 1])
    ensures forall b :: 0 <= b < k ==> RunAt(out, offsets, b) == Bucket(s, asg, b)
  {
    OffsetEnd(asg, k);
    forall b | 0 <= b < k ensures 0 <= offsets[b] <= |s| && (b + 1 < k ==> offsets[b] <= offsets[b + 1]) {
      OffsetMonotone(asg, b, b + 1);
      OffsetMonotone(asg, b + 1, k);
    }
    forall b | 0 <= b < k ensures RunAt(out, offsets, b) == Bucket(s, asg, b) {
      assert RunFilled(out, s, asg, b, |s|);
      assert s[..|s|] == s && asg[..|s|] == asg;
    }
  }

  // ---------------------------------------------------------------- the two classes

  /** The elements whose flag is `want`, in order. */
  function Select<T>(s: seq<T>, flags: seq<bool>, want: bool): (r: seq<T>)
    requires |s| == |flags|
    ensures |r| == CountFlag(flags, want)
  {
    if |s| == 0 then []
    else
      var n := |s| - 1;
      if flags[n] == want then Select(s[..n], flags[..n], want) + [s[n]] else Select(s[..n], flags[..n], want)
  }

  /** Normal objects first, then the ones routed to store-level packs, each class in input order. */
  method Partition<T(0)>(s: seq<T>, isStore: seq<bool>) returns (parted: seq<T>, split: nat)
    requires |s| == |isStore|
    ensures parted == Select(s, isStore, false) + Select(s, isStore, true)
    ensures split == |Select(s, isStore, false)|
  {
    parted := [];
    for i := 0 to |s|
      invariant parted == Select(s[..i], isStore[..i], false)
    {
      assert s[..i + 1][..i] == s[..i] && isStore[..i + 1][..i] == isStore[..i];
      if !isStore[i] { parted := parted + [s[i]]; }
    }
    assert s[..|s|] == s && isStore[..|s|] == isStore;
    split := |parted|;
    for i := 0 to |s|
      invariant parted == Select(s, isStore, false) + Select(s[..i], isStore[..i], true)
    {
      assert s[..i + 1][..i] == s[..i] && isStore[..i + 1][..i] == isStore[..i];
      if isStore[i] { parted := parted + [s[i]]; }
    }
  }

  function CountFlag(flags: seq<bool>, want: bool): nat {
    if |flags| == 0 then 0 else CountFlag(flags[..|flags| - 1], want) + (if flags[|flags| - 1] == want then 1 else 0)
  }

  /** The bin of every input item, given the bins of the two classes. */
  function Weave(isStore: seq<bool>, normal: seq<int>, store: seq<int>): (w: seq<int>)
    requires |normal| == CountFlag(isStore, false) && |store| == CountFlag(isStore, true)
    ensures |w| == |isStore|
  {
    if |isStore| == 0 then []
    else
      var n := |isStore| - 1;
      if isStore[n] then Weave(isStore[..n], normal, store[..|store| - 1]) + [store[|store| - 1]]
      else Weave(isStore[..n], normal[..|normal| - 1], store) + [normal[|normal| - 1]]
  }

  lemma SelectAppend<T>(s: seq<T>, flags: seq<bool>, x: T, f: bool, want: bool)
    requires |s| == |flags|
    ensures Select(s + [x], flags + [f], want)
            == if f == want then Select(s, flags, want) + [x] else Select(s, flags, want)
  {
    assert (s + [x])[..|s|] == s && (flags + [f])[..|s|] == flags;
  }

  lemma WeaveStore(init: seq<bool>, normal: seq<int>, rest: seq<int>, x: int)
    requires |normal| == CountFlag(init, false) && |rest| == CountFlag(init, true)
    ensures CountFlag(init + [true], false) == |normal| && CountFlag(init + [true], true) == |rest + [x]|
    ensures Weave(init + [true], normal, rest + [x]) == Weave(init, normal, rest) + [x]
  {
    assert (init + [true])[..|init|] == init && (rest + [x])[..|rest|] == rest;
  }

  lemma WeaveNormal(init: seq<bool>, rest: seq<int>, store: seq<int>, x: int)
    requires |rest| == CountFlag(init, false) && |store| == CountFlag(init, true)
    ensures CountFlag(init + [false], false) == |rest + [x]| && CountFlag(init + [false], true) == |store|
    ensures Weave(init + [false], rest + [x], store) == Weave(init, rest, store) + [x]
  {
    assert (init + [false])[..|init|] == init && (rest + [x])[..|rest|] == rest;
  }

  lemma SplitLast<T>(s: seq<T>)
    requires s != []
    ensures s == s[..|s| - 1] + [s[|s| - 1]]
  {}

  lemma CountLast(flags: seq<bool>, want: bool)
    requires flags != []
    ensures CountFlag(flags, want)
            == CountFlag(flags[..|flags| - 1], want) + if flags[|flags| - 1] == want then 1 else 0
  {}

  lemma WeaveNone()
    ensures CountFlag([], false) == 0 && CountFlag([], true) == 0
    ensures Weave([], [], []) == [] && Select(Weave([], [], []), [], false) == []
              && Select(Weave([], [], []), [], true) == []
  {}

  /** Sorting the woven bins by class again gives the two classes' bins back. */
  lemma {:induction false} WeaveSelects(isStore: seq<bool>, normal: seq<int>, store: seq<int>)
    requires |normal| == CountFlag(isStore, false) && |store| == CountFlag(isStore, true)
    ensures Select(Weave(isStore, normal, store), isStore, false) == normal
    ensures Select(Weave(isStore, normal, store), isStore, true) == store
  {
    hide *;
    if isStore == [] {
      WeaveNone();
    } else {
      var init, f := isStore[..|isStore| - 1], isStore[|isStore| - 1];
      SplitLast(isStore);
      CountLast(isStore, false);
      CountLast(isStore, true);
      if f {
        var rest, x := store[..|store| - 1], store[|store| - 1];
        SplitLast(store);
        WeaveSelects(init, normal, rest);
        WeaveStore(init, normal, rest, x);
        SelectAppend(Weave(init, normal, rest), init, x, true, false);
        SelectAppend(Weave(init, normal, rest), init, x, true, true);
      } else {
        var rest, x := normal[..|normal| - 1], normal[|normal| - 1];
        SplitLast(normal);
        WeaveSelects(init, rest, store);
        WeaveNormal(init, rest, store, x);
        SelectAppend(Weave(init, rest, store), init, x, false, false);
        SelectAppend(Weave(init, rest, store), init, x, false, true);
      }
    }
  }

  /** Each item's bin is one of its own class's. */
  lemma {:induction false} WeaveFrom(isStore: seq<bool>, normal: seq<int>, store: seq<int>, i: nat)
    requires |normal| == CountFlag(isStore, false) && |store| == CountFlag(isStore, true) && i < |isStore|
    ensures Weave(isStore, normal, store)[i] in (if isStore[i] then store else normal)
  {
    var n := |isStore| - 1;
    if i < n {
      if isStore[n] { WeaveFrom(isStore[..n], normal, store[..|store| - 1], i); }
      else { WeaveFrom(isStore[..n], normal[..|normal| - 1], store, i); }
    }
  }

  lemma {:induction false} FlagsSplit(flags: seq<bool>)
    ensures CountFlag(flags, false) + CountFlag(flags, true) == |flags|
  {
    if |flags| > 0 { FlagsSplit(flags[..|flags| - 1]); }
  }

  lemma {:induction false} BucketNone<T>(s: seq<T>, asg: seq<int>, b: int)
    requires |s| == |asg| && forall i :: 0 <= i < |asg| ==> asg[i] != b
    ensures Bucket(s, asg, b) == []
  {
    if |s| > 0 { BucketNone(s[..|s| - 1], asg[..|s| - 1], b); }
  }

  lemma {:induction false} BucketConcat<T>(s: seq<T>, asg: seq<int>, t: seq<T>, bsg: seq<int>, b: int)
    requires |s| == |asg| && |t| == |bsg|
    ensures Bucket(s + t, asg + bsg, b) == Bucket(s, asg, b) + Bucket(t, bsg, b)
  {
    hide BinCount;
    if |t| == 0 {
      assert s + t == s && asg + bsg == asg;
    } else {
      var n := |t| - 1;
      BucketConcat(s, asg, t[..n], bsg[..n], b);
      assert s + t == (s + t[..n]) + [t[n]] && asg + bsg == (asg + bsg[..n]) + [bsg[n]];
      BucketAppend(s + t[..n], asg + bsg[..n], t[n], bsg[n], b);
    }
  }

  /** One class alone: a bin of its own holds the same, in the same order, with the other class left out. */
  lemma {:induction false} ClassBucket<T>(s: seq<T>, flags: seq<bool>, want: bool, w: seq<int>, b: int)
    requires |s| == |flags| == |w| && forall i :: 0 <= i < |s| && flags[i] != want ==> w[i] != b
    ensures Bucket(s, w, b) == Bucket(Select(s, flags, want), Select(w, flags, want), b)
  {
    if |s| > 0 {
      var n := |s| - 1;
      ClassBucket(s[..n], flags[..n], want, w[..n], b);
      var t, u := Select(s[..n], flags[..n], want), Select(w[..n], flags[..n], want);
      if flags[n] == want { BucketAppend(t, u, s[n], w[n], b); }
    }
  }

  /** Binning the parted objects bins the input: every bin holds the same objects in the same order. */
  lemma PartedBucket<T>(s: seq<T>, isStore: seq<bool>, left: seq<int>, right: seq<int>, normal: nat, b: int)
    requires |s| == |isStore|
    requires |left| == CountFlag(isStore, false) && |right| == CountFlag(isStore, true)
    requires forall i :: 0 <= i < |left| ==> left[i] < normal
    requires forall i :: 0 <= i < |right| ==> right[i] >= normal
    ensures Bucket(Select(s, isStore, false) + Select(s, isStore, true), left + right, b)
            == Bucket(s, Weave(isStore, left, right), b)
  {
    var w := Weave(isStore, left, right);
    WeaveSelects(isStore, left, right);
    forall i | 0 <= i < |w| ensures w[i] >= normal <==> isStore[i] { WeaveFrom(isStore, left, right, i); }
    hide Bucket, Weave, Select;
    BucketConcat(Select(s, isStore, false), left, Select(s, isStore, true), right, b);
    if b < normal {
      BucketNone(Select(s, isStore, true), right, b);
      ClassBucket(s, isStore, false, w, b);
    } else {
      BucketNone(Select(s, isStore, false), left, b);
      ClassBucket(s, isStore, true, w, b);
    }
  }

  // ---------------------------------------------------------------- the layout

  /** A pack's worth of objects stays within the target, or is one object. */
  predicate RunLegal(run: seq<Obj>, target: int) { Total(Costs(run)) <= target || |run| == 1 }

  /** What a pack run must come out as: `place[i]` is the pack of object `i`, in the order given;
      no pack is empty or mixes the classes, and the packs of normal objects come first. */
  ghost predicate IsLayout(objs: seq<Obj>, isStore: seq<bool>, place: seq<int>, normal: nat, runs: seq<seq<Obj>>) {
    && |place| == |isStore| == |objs| && normal <= |runs|
    && (forall i :: 0 <= i < |place| ==> 0 <= place[i] < |runs| && (isStore[i] <==> place[i] >= normal))
    && (forall b :: 0 <= b < |runs| ==> runs[b] == Bucket(objs, place, b))
    && (forall b :: 0 <= b < |runs| ==> runs[b] != [])
  }

  lemma {:induction false} BinTotalOfBucket(v: seq<int>, asg: seq<int>, b: int)
    requires |v| == |asg|
    ensures BinTotal(v, asg, b) == Total(Bucket(v, asg, b))
  {
    if |v| > 0 {
      BinTotalOfBucket(v[..|v| - 1], asg[..|v| - 1], b);
      var r := Bucket(v[..|v| - 1], asg[..|v| - 1], b);
      assert r + [] == r && (r + [v[|v| - 1]])[..|r|] == r;
    }
  }

  lemma {:induction false} CostsOfBucket(objs: seq<Obj>, asg: seq<int>, b: int)
    requires |objs| == |asg|
    ensures Costs(Bucket(objs, asg, b)) == Bucket(Costs(objs), asg, b)
  {
    if |objs| > 0 {
      var n := |objs| - 1;
      CostsOfBucket(objs[..n], asg[..n], b);
      assert Costs(objs)[..n] == Costs(objs[..n]);
    }
  }

  /** A legal bin is a legal pack. */
  lemma LegalRun(objs: seq<Obj>, asg: seq<int>, target: int, b: int)
    requires |objs| == |asg| && LegalBin(Costs(objs), target, asg, b)
    ensures RunLegal(Bucket(objs, asg, b), target)
  {
    BinTotalOfBucket(Costs(objs), asg, b);
    CostsOfBucket(objs, asg, b);
  }

  lemma {:induction false} BucketNotEmpty<T>(s: seq<T>, asg: seq<int>, b: int)
    requires |s| == |asg| && b in asg
    ensures Bucket(s, asg, b) != []
  {
    var n := |s| - 1;
    if asg[n] != b { BucketNotEmpty(s[..n], asg[..n], b); }
  }

  lemma ConcatLast<T>(s: seq<T>, asg: seq<int>, k: nat)
    requires |s| == |asg| && k > 0
    ensures Concat(Buckets(s, asg, k)) == Concat(Buckets(s, asg, k - 1)) + Bucket(s, asg, k - 1)
  {
    assert Buckets(s, asg, k)[..k - 1] == Buckets(s, asg, k - 1);
  }

  /** One more object, in bin `a`, is one more member of the first `k` bins exactly when `a` is among them. */
  lemma {:induction false} ConcatAppend<T>(s: seq<T>, asg: seq<int>, x: T, a: int, k: nat)
    requires |s| == |asg| && a >= 0
    ensures multiset(Concat(Buckets(s + [x], asg + [a], k)))
            == multiset(Concat(Buckets(s, asg, k))) + (if a < k then multiset{x} else multiset{})
  {
    if k > 0 {
      ConcatAppend(s, asg, x, a, k - 1);
      ConcatLast(s, asg, k);
      ConcatLast(s + [x], asg + [a], k);
      BucketAppend(s, asg, x, a, k - 1);
      AppendBoth(Concat(Buckets(s, asg, k - 1)), Bucket(s, asg, k - 1), Concat(Buckets(s + [x], asg + [a], k - 1)), x,
                 a < k - 1, a == k - 1);
    }
  }

  lemma AppendBoth<T>(c: seq<T>, b: seq<T>, d: seq<T>, x: T, before: bool, here: bool)
    requires multiset(d) == multiset(c) + (if before then multiset{x} else multiset{})
    requires !(before && here)
    ensures multiset(d + (if here then b + [x] else b))
            == multiset(c + b) + (if before || here then multiset{x} else multiset{})
  {}

  lemma {:induction false} ConcatOfNone<T>(s: seq<T>, asg: seq<int>, k: nat)
    requires |s| == |asg| == 0
    ensures Concat(Buckets(s, asg, k)) == []
  {
    if k > 0 {
      ConcatOfNone(s, asg, k - 1);
      ConcatLast(s, asg, k);
    }
  }

  /** Nothing is lost, added or doubled: the bins hold the objects given, each once. */
  lemma {:induction false} BucketsPermute<T>(s: seq<T>, asg: seq<int>, k: nat)
    requires |s| == |asg| && forall i :: 0 <= i < |asg| ==> 0 <= asg[i] < k
    ensures multiset(Concat(Buckets(s, asg, k))) == multiset(s)
  {
    if |s| == 0 {
      ConcatOfNone(s, asg, k);
    } else {
      var n := |s| - 1;
      BucketsPermute(s[..n], asg[..n], k);
      assert s == s[..n] + [s[n]] && asg == asg[..n] + [asg[n]];
      ConcatAppend(s[..n], asg[..n], s[n], asg[n], k);
    }
  }

  lemma LayoutPermutes(objs: seq<Obj>, isStore: seq<bool>, place: seq<int>, normal: nat, runs: seq<seq<Obj>>)
    requires IsLayout(objs, isStore, place, normal, runs)
    ensures multiset(Concat(runs)) == multiset(objs)
  {
    BucketsPermute(objs, place, |runs|);
    assert runs == Buckets(objs, place, |runs|);
  }

  /** The assignment with every bin number raised by `up`. */
  function Shift(asg: seq<int>, up: int): (r: seq<int>)
    ensures |r| == |asg|
  {
    seq(|asg|, i requires 0 <= i < |asg| => asg[i] + up)
  }

  lemma {:induction false} BucketShift<T>(s: seq<T>, asg: seq<int>, up: int, b: int)
    requires |s| == |asg|
    ensures Bucket(s, Shift(asg, up), b) == Bucket(s, asg, b - up)
  {
    if |s| > 0 {
      var n := |s| - 1;
      BucketShift(s[..n], asg[..n], up, b);
      assert Shift(asg, up)[..n] == Shift(asg[..n], up);
    }
  }

  /** One class's bins as the bin-assignment functions number them. */
  ghost predicate ClassBinned(objs: seq<Obj>, asg: seq<int>, k: nat) {
    |asg| == |objs| && (forall i :: 0 <= i < |asg| ==> 0 <= asg[i] < k) && AllUsed(asg, k)
  }

  /** Bins `from..to` of a layout are within the target, or of a single object. */
  ghost predicate RunsLegal(runs: seq<seq<Obj>>, target: int, from: nat, to: nat) {
    forall b :: from <= b < to && b < |runs| ==> RunLegal(runs[b], target)
  }

  lemma ClassRun(objs: seq<Obj>, target: int, asg: seq<int>, k: nat, b: nat)
    requires ClassBinned(objs, asg, k) && b < k
    ensures Bucket(objs, asg, b) != []
    ensures Legal(Costs(objs), target, asg, k) ==> RunLegal(Bucket(objs, asg, b), target)
  {
    BucketNotEmpty(objs, asg, b);
    if Legal(Costs(objs), target, asg, k) {
      assert LegalBin(Costs(objs), target, asg, b);
      LegalRun(objs, asg, target, b);
    }
  }

  /** Every bin of the parted objects is a bin of one class. */
  lemma PartedRun(a: seq<Obj>, c: seq<Obj>, target: int, left: seq<int>, right: seq<int>, k: nat, m: nat, b: nat)
    requires ClassBinned(a, left, k) && ClassBinned(c, right, m) && b < k + m
    ensures Bucket(a + c, left + Shift(right, k), b) != []
    ensures (if b < k then Legal(Costs(a), target, left, k) else Legal(Costs(c), target, right, m)) ==>
              RunLegal(Bucket(a + c, left + Shift(right, k), b), target)
  {
    hide Legal, RunLegal, Costs;
    var both := Bucket(a + c, left + Shift(right, k), b);
    BucketConcat(a, left, c, Shift(right, k), b);
    if b < k {
      BucketNone(c, Shift(right, k), b);
      assert both == Bucket(a, left, b);
      ClassRun(a, target, left, k, b);
    } else {
      BucketNone(a, left, b);
      BucketShift(c, right, k, b);
      assert both == Bucket(c, right, b - k);
      ClassRun(c, target, right, m, b - k);
    }
  }

  /** Binning each class by itself and numbering the store bins after the normal ones gives a layout. */
  lemma LayoutFromClasses(objs: seq<Obj>, isStore: seq<bool>, target: int, left: seq<int>, right: seq<int>,
          k: nat, m: nat)
    requires |objs| == |isStore|
    requires ClassBinned(Select(objs, isStore, false), left, k)
    requires ClassBinned(Select(objs, isStore, true), right, m)
    ensures var a, c := Select(objs, isStore, false), Select(objs, isStore, true);
            var runs := Buckets(a + c, left + Shift(right, k), k + m);
            && IsLayout(objs, isStore, Weave(isStore, left, Shift(right, k)), k, runs)
            && (Legal(Costs(a), target, left, k) ==> RunsLegal(runs, target, 0, k))
            && (Legal(Costs(c), target, right, m) ==> RunsLegal(runs, target, k, k + m))
  {
    hide Legal, RunLegal, Costs, Bucket;
    var a, c := Select(objs, isStore, false), Select(objs, isStore, true);
    var shifted := Shift(right, k);
    var place := Weave(isStore, left, shifted);
    var runs := Buckets(a + c, left + shifted, k + m);
    forall i | 0 <= i < |place| ensures 0 <= place[i] < k + m && (isStore[i] <==> place[i] >= k) {
      WeaveFrom(isStore, left, shifted, i);
    }
    forall b | 0 <= b < k + m
      ensures runs[b] == Bucket(objs, place, b) && runs[b] != []
      ensures (if b < k then Legal(Costs(a), target, left, k) else Legal(Costs(c), target, right, m)) ==>
                RunLegal(runs[b], target)
    {
      PartedBucket(objs, isStore, left, shifted, k, b);
      PartedRun(a, c, target, left, right, k, m, b);
    }
  }

  /** The packs of one class are at most three for every two of any legal packing, or fewer than twice as many. */
  ghost predicate FewBins(algo: Algo, costs: seq<int>, target: int, k: nat) {
    forall packing, m: nat :: Legal(costs, target, packing, m) ==>
      match algo
      case FfdAlgo => 2 * k <= 3 * m
      case NextFitAlgo => k == 0 || k < 2 * m
  }

  /** The algorithm's loads stay within 64 bits on these costs; first-fit decreasing's always do. */
  predicate InBounds(algo: Algo, costs: seq<int>, target: int) { algo.FfdAlgo? || NextFit.NoOverflow(costs, target) }

  /** These are the bins that the algorithm gives items of these costs. */
  ghost predicate AssignedBy(algo: Algo, costs: seq<int>, target: int, asg: seq<int>, k: int) {
    match algo
    case NextFitAlgo => asg == NextFit.Run64(costs, target).asg && k == NextFit.Run64(costs, target).bins
    case FfdAlgo => exists order :: IsVisitOrder(order, costs) && FirstFits(costs, target, order, asg, k)
  }

  ghost predicate FirstFits(costs: seq<int>, target: int, order: seq<nat>, asg: seq<int>, k: int)
    requires IsVisitOrder(order, costs)
  {
    var s := Ffd.PlaceAll(costs, target, order, |order|);
    asg == s.asg && k == |s.rem|
  }

  /** One class's bins are the algorithm's and few, and keep to the target as far as the algorithm's loads are exact. */
  ghost predicate ClassPacked(objs: seq<Obj>, target: int, algo: Algo, asg: seq<int>, k: nat) {
    && AssignedBy(algo, Costs(objs), target, asg, k) && FewBins(algo, Costs(objs), target, k)
    && (InBounds(algo, Costs(objs), target) ==> Legal(Costs(objs), target, asg, k))
  }

  lemma FfdFew(costs: seq<int>, target: int, order: seq<nat>)
    requires target >= 1 && Positive(costs) && IsVisitOrder(order, costs)
    ensures FewBins(FfdAlgo, costs, target, |Ffd.PlaceAll(costs, target, order, |order|).rem|)
  {
    forall packing, m: nat | Legal(costs, target, packing, m)
      ensures 2 * |Ffd.PlaceAll(costs, target, order, |order|).rem| <= 3 * m
    { Ffd.FfdWithinThreeHalves(costs, target, order, packing, m); }
  }

  lemma NextFitFew(costs: seq<int>, target: int)
    requires 1 <= target <= INT64_MAX && Positive(costs)
    ensures FewBins(NextFitAlgo, costs, target, NextFit.Run64(costs, target).bins)
  {
    forall packing, m: nat | Legal(costs, target, packing, m)
      ensures NextFit.Run64(costs, target).bins == 0 || NextFit.Run64(costs, target).bins < 2 * m
    { if costs != [] { NextFit.NextFitWithinTwice(costs, target, packing, m); } }
  }

  /** One class's bins, by the chosen algorithm. */
  method AssignClass(objs: seq<Obj>, target: int, algo: Algo, binOf: array<int>, off: nat, mallocFails: (nat,
          nat) -> bool)
    returns (k: nat)
    requires 1 <= target <= INT64_MAX && off + |objs| <= binOf.Length
    modifies binOf
    ensures ClassBinned(objs, binOf[off..off + |objs|], k)
    ensures ClassPacked(objs, target, algo, binOf[off..off + |objs|], k)
    ensures binOf[..off] == old(binOf[..off])
    ensures binOf[off + |objs|..] == old(binOf[off + |objs|..])
  {
    var costs := Costs(objs);
    assert Positive(costs);
    match algo {
      case FfdAlgo =>
        ghost var order;
        k, order := Ffd.BinAssignFfd(costs, target, binOf, off, mallocFails);
        Ffd.FfdLegal(costs, target, order);
        FfdFew(costs, target, order);
        assert FirstFits(costs, target, order, binOf[off..off + |objs|], k);
      case NextFitAlgo =>
        k := NextFit.BinAssignNextFit(costs, target, binOf, off);
        NextFit.Run64Numbered(costs, target);
        NextFit.NextFitLegal(costs, target);
        NextFitFew(costs, target);
    }
  }

  /** Both classes' bins side by side, the store bins numbered after the normal ones. */
  method AssignClasses(a: seq<Obj>, c: seq<Obj>, target: int, algo: Algo, mallocFails: (nat, nat) -> bool)
    returns (binOf: array<int>, normal: nat, stores: nat, ghost left: seq<int>, ghost right: seq<int>)
    requires 1 <= target <= INT64_MAX
    ensures |left| == |a| && |right| == |c| && binOf[..] == left + Shift(right, normal)
    ensures ClassBinned(a, left, normal) && ClassPacked(a, target, algo, left, normal)
    ensures ClassBinned(c, right, stores) && ClassPacked(c, target, algo, right, stores)
  {
    hide ClassBinned, ClassPacked;
    var split := |a|;
    binOf := new int[split + |c|];
    normal := AssignClass(a, target, algo, binOf, 0, mallocFails);
    left := binOf[0..0 + split];
    assert forall i :: 0 <= i < split ==> binOf[i] == binOf[..split][i];
    stores := AssignClass(c, target, algo, binOf, split, mallocFails);
    right := binOf[split..split + |c|];
    assert binOf[..split] == left;
    assert forall i :: 0 <= i < split ==> binOf[i] == left[i];
    for i := split to binOf.Length
      invariant forall j :: 0 <= j < split ==> binOf[j] == left[j]
      invariant forall j :: split <= j < i ==> binOf[j] == right[j - split] + normal
      invariant forall j :: i <= j < binOf.Length ==> binOf[j] == right[j - split]
    {
      binOf[i] := binOf[i] + normal;
    }
  }

  ghost predicate OffsetsInRange(n: nat, offsets: seq<int>) {
    forall b :: 0 <= b < |offsets| ==> 0 <= offsets[b] <= n && (b + 1 < |offsets| ==> offsets[b] <= offsets[b + 1])
  }

  function Runs<T>(out: seq<T>, offsets: seq<int>): (r: seq<seq<T>>)
    requires OffsetsInRange(|out|, offsets)
  {
    seq(|offsets|, b requires 0 <= b < |offsets| => RunAt(out, offsets, b))
  }

  /** The costs of one class, in input order. */
  function ClassCosts(objs: seq<Obj>, isStore: seq<bool>, want: bool): seq<int>
    requires |objs| == |isStore|
  {
    Costs(Select(objs, isStore, want))
  }

  /** What a pack run makes of its objects: a layout in which each class has the bins its algorithm gives it, in as few
      packs as the algorithm promises, and as far as its loads are exact each within the target or of one object. */
  ghost predicate WellDivided(objs: seq<Obj>, isStore: seq<bool>, target: int, algo: Algo, place: seq<int>,
          normal: nat, runs: seq<seq<Obj>>) {
    && IsLayout(objs, isStore, place, normal, runs)
    && AssignedBy(algo, ClassCosts(objs, isStore, false), target, Select(place, isStore, false), normal)
    && AssignedBy(algo, ClassCosts(objs, isStore, true), target, Lowered(Select(place, isStore, true), normal),
                  |runs| - normal)
    && FewBins(algo, ClassCosts(objs, isStore, false), target, normal)
    && FewBins(algo, ClassCosts(objs, isStore, true), target, |runs| - normal)
    && (InBounds(algo, ClassCosts(objs, isStore, false), target) ==> RunsLegal(runs, target, 0, normal))
    && (InBounds(algo, ClassCosts(objs, isStore, true), target) ==> RunsLegal(runs, target, normal, |runs|))
  }

  /** The assignment with every bin number counted from `base` on. */
  function Lowered(asg: seq<int>, base: nat): (r: seq<int>)
    ensures |r| == |asg|
  {
    seq(|asg|, i requires 0 <= i < |asg| => asg[i] - base)
  }

  lemma ShiftBack(asg: seq<int>, up: nat)
    ensures Lowered(Shift(asg, up), up) == asg
  {}

  lemma DividedFromClasses(objs: seq<Obj>, isStore: seq<bool>, target: int, algo: Algo, left: seq<int>,
          right: seq<int>, k: nat, m: nat)
    requires |objs| == |isStore|
    requires ClassBinned(Select(objs, isStore, false), left, k) && ClassBinned(Select(objs, isStore, true), right, m)
    requires ClassPacked(Select(objs, isStore, false), target, algo, left, k)
    requires ClassPacked(Select(objs, isStore, true), target, algo, right, m)
    ensures var parted := Select(objs, isStore, false) + Select(objs, isStore, true);
            var runs := Buckets(parted, left + Shift(right, k), k + m);
            WellDivided(objs, isStore, target, algo, Weave(isStore, left, Shift(right, k)), k, runs)
  {
    hide Select, Weave, Buckets, IsLayout, RunsLegal, Legal, Costs, AssignedBy, FewBins, InBounds, Shift, Lowered;
    LayoutFromClasses(objs, isStore, target, left, right, k, m);
    ShiftBack(right, k);
    WeaveSelects(isStore, left, Shift(right, k));
    BucketsCount(Select(objs, isStore, false) + Select(objs, isStore, true), left + Shift(right, k), k + m);
  }

  lemma BucketsCount<T>(s: seq<T>, asg: seq<int>, k: nat)
    requires |s| == |asg|
    ensures |Buckets(s, asg, k)| == k
  {}

  /** Nothing to divide. */
  lemma NothingDivided(target: int, algo: Algo)
    ensures WellDivided([], [], target, algo, [], 0, [])
  {
    if algo.FfdAlgo? {
      var order: seq<nat> := [];
      assert Identity(0) == [];
      assert IsVisitOrder(order, []) && FirstFits([], target, order, [], 0);
    }
  }

  /** From the objects to store and their classes to one run of objects per pack. */
  method LayOut(objs: seq<Obj>, isStore: seq<bool>, target: int, algo: Algo, mallocFails: (nat, nat) -> bool)
    returns (ordered: array<Obj>, offsets: array<int>, normal: nat, ghost place: seq<int>)
    requires |objs| == |isStore| && 1 <= target <= INT64_MAX
    ensures OffsetsInRange(ordered.Length, offsets[..]) && normal <= offsets.Length
    ensures WellDivided(objs, isStore, target, algo, place, normal, Runs(ordered[..], offsets[..]))
  {
    FlagsSplit(isStore);
    var parted, split := Partition(objs, isStore);
    ghost var a, c := Select(objs, isStore, false), Select(objs, isStore, true);
    assert parted[..split] == a && parted[split..] == c;
    var binOf, stores;
    ghost var left, right;
    hide ClassBinned, ClassPacked, Costs, Select, WellDivided;
    binOf, normal, stores, left, right := AssignClasses(parted[..split], parted[split..], target, algo, mallocFails);
    ordered, offsets := CountingSort(parted, binOf[..], normal + stores);
    place := Weave(isStore, left, Shift(right, normal));
    assert Runs(ordered[..], offsets[..]) == Buckets(parted, left + Shift(right, normal), normal + stores);
    DividedFromClasses(objs, isStore, target, algo, left, right, normal, stores);
  }
}
