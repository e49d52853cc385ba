/** One sequential pass over a pack, writing the members wanted from it (`restore_one_pack`). */
module Extract {
  import opened Types
  import opened OnDisk
  import opened Links

  /** An object to extract: its names in the snapshot and the index entry that says where it is. */
  datatype Needed = Needed(group: Group, entry: Entry)

  /** Where the object is extracted to; its other names are linked to this one. */
  function Target(nd: Needed): Bytes { if nd.group.paths == [] then [] else nd.group.paths[0] }

  /** Extracted bytes that are not what the index says: restore warns, and keeps them. */
  predicate Mismatch(c: Codec, e: Entry, data: Bytes) { |data| != e.size || (e.sha != "" && c.sha(data) != e.sha) }

  predicate Wants(nd: Needed, m: Member) { nd.entry.path == m.path }

  /** No pathname twice, on either side, and no target twice. */
  ghost predicate Matchable(ms: seq<Member>, items: seq<Needed>) {
    && DistinctMembers(ms)
    && (forall i, j :: 0 <= i < j < |items| ==> items[i].entry.path != items[j].entry.path)
    && (forall i, j :: 0 <= i < j < |items| ==> Target(items[i]) != Target(items[j]))
  }

  ghost predicate Found(ms: seq<Member>, nd: Needed) { exists m :: m in ms && Wants(nd, m) }

  /** What the pass over `ms` has come to: the files written, which items they belong to, and whether it has warned. */
  datatype Pass = Pass(dest: map<Bytes, Bytes>, written: seq<bool>, warned: bool)

  /** Exactly the items found are marked. */
  ghost predicate Marked(ms: seq<Member>, items: seq<Needed>, p: Pass) {
    |p.written| == |items| && forall k :: 0 <= k < |items| ==> (p.written[k] <==> Found(ms, items[k]))
  }

  /** Each member wanted lies at its item's target. */
  ghost predicate Placed(ms: seq<Member>, items: seq<Needed>, p: Pass) {
    forall k, m :: 0 <= k < |items| && m in ms && Wants(items[k], m)
                   ==> Target(items[k]) in p.dest && p.dest[Target(items[k])] == m.data
  }

  /** Nothing else was written. */
  ghost predicate Untouched(items: seq<Needed>, before: map<Bytes, Bytes>, p: Pass) {
    && (forall x :: x in before ==> x in p.dest)
    && (forall x ::
          x in p.dest && (forall k :: 0 <= k < |items| && k < |p.written| && p.written[k] ==> Target(items[k]) != x)
          ==> x in before && p.dest[x] == before[x])
  }

  /** These bytes have the size the entry says, and the hash, if it says one. */
  predicate Checks(c: Codec, e: Entry, data: Bytes) { |data| == e.size && (e.sha == "" || c.sha(data) == e.sha) }

  /** A warning was given exactly if some item's member is not what its entry says. */
  ghost predicate WarnedRight(c: Codec, ms: seq<Member>, items: seq<Needed>, p: Pass) {
    p.warned <==>
      exists k, m :: 0 <= k < |items| && m in ms && Wants(items[k], m) && !Checks(c, items[k].entry, m.data)
  }

  ghost predicate Passed(c: Codec, ms: seq<Member>, items: seq<Needed>, before: map<Bytes, Bytes>, p: Pass) {
    && Marked(ms, items, p) && Placed(ms, items, p) && Untouched(items, before, p) && WarnedRight(c, ms, items, p)
  }

  function Unwritten(written: seq<bool>): (n: nat)
    ensures n <= |written|
    ensures n == 0 <==> forall k :: 0 <= k < |written| ==> written[k]
  {
    if written == [] then 0 else Unwritten(written[..|written| - 1]) + if written[|written| - 1] then 0 else 1
  }

  lemma {:induction false} OneFewerUnwritten(written: seq<bool>, k: nat)
    requires k < |written| && !written[k]
    ensures Unwritten(written[k := true]) + 1 == Unwritten(written)
  {
    var n := |written| - 1;
    if k < n {
      OneFewerUnwritten(written[..n], k);
      assert written[k := true][..n] == written[..n][k := true];
    } else {
      assert written[k := true][..n] == written[..n];
    }
  }

  /** Takes one member: copied to the target of the first item that still wants it, if any. */
  function Take(c: Codec, items: seq<Needed>, p: Pass, m: Member, k: nat): (q: Pass)
    requires k <= |items| == |p.written|
    ensures |q.written| == |items|
  {
    if k == |items| then p
    else Pass(p.dest[Target(items[k]) := m.data], p.written[k := true], p.warned || Mismatch(c, items[k].entry, m.data))
  }

  /** The first item, not yet written, that wants the member. */
  ghost predicate FirstWanting(items: seq<Needed>, written: seq<bool>, m: Member, k: nat) {
    && k <= |items| == |written|
    && (forall i :: 0 <= i < k ==> written[i] || !Wants(items[i], m))
    && (k < |items| ==> !written[k] && Wants(items[k], m))
  }

  function FirstFrom(items: seq<Needed>, written: seq<bool>, m: Member, i: nat): (k: nat)
    requires i <= |items| == |written|
    ensures i <= k <= |items|
    ensures forall j :: i <= j < k ==> written[j] || !Wants(items[j], m)
    ensures k < |items| ==> !written[k] && Wants(items[k], m)
    decreases |items| - i
  {
    if i == |items| || (!written[i] && Wants(items[i], m)) then i else FirstFrom(items, written, m, i + 1)
  }

  /** The pass over a whole archive, member by member, without stopping early. */
  function TakeAll(c: Codec, items: seq<Needed>, before: map<Bytes, Bytes>, ms: seq<Member>): (p: Pass)
    ensures |p.written| == |items|
  {
    if ms == [] then Pass(before, seq(|items|, _ => false), false)
    else
      var p, m := TakeAll(c, items, before, ms[..|ms| - 1]), ms[|ms| - 1];
      Take(c, items, p, m, FirstFrom(items, p.written, m, 0))
  }

  method FindWanting(items: seq<Needed>, written: seq<bool>, m: Member) returns (k: nat)
    requires |written| == |items|
    ensures k == FirstFrom(items, written, m, 0)
  {
    k := 0;
    while k < |items| && (written[k] || !Wants(items[k], m))
      invariant 0 <= k <= |items| && FirstFrom(items, written, m, 0) == FirstFrom(items, written, m, k)
    {
      k := k + 1;
    }
  }

  /** One pass, stopping as soon as nothing more is wanted: what the pass over the whole archive would have come to. */
  method RestoreOnePack(c: Codec, ms: seq<Member>, items: seq<Needed>, before: map<Bytes, Bytes>) returns (p: Pass)
    ensures p == TakeAll(c, items, before, ms)
  {
    hide *;
    p := Pass(before, seq(|items|, _ => false), false);
    var remaining := |items|;
    TakeNone(c, items, before);
    var j := 0;
    assert ms[..0] == [];
    while remaining > 0 && j < |ms|
      invariant 0 <= j <= |ms| && remaining == Unwritten(p.written)
      invariant p == TakeAll(c, items, before, ms[..j])
    {
      var k := FindWanting(items, p.written, ms[j]);
      TakeStep(c, items, before, ms, j, k);
      if k < |items| {
        p := Pass(p.dest[Target(items[k]) := ms[j].data], p.written[k := true],
                  p.warned || Mismatch(c, items[k].entry, ms[j].data));
        remaining := remaining - 1;
      }
      j := j + 1;
    }
    NothingLeft(c, items, before, ms, j);
  }

  lemma TakeNone(c: Codec, items: seq<Needed>, before: map<Bytes, Bytes>)
    ensures var p := Pass(before, seq(|items|, _ => false), false);
            p == TakeAll(c, items, before, []) && Unwritten(p.written) == |items|
  {
    AllUnwritten(|items|);
  }

  lemma TakeStep(c: Codec, items: seq<Needed>, before: map<Bytes, Bytes>, ms: seq<Member>, j: nat, k: nat)
    requires j < |ms| && k == FirstFrom(items, TakeAll(c, items, before, ms[..j]).written, ms[j], 0)
    ensures var p := TakeAll(c, items, before, ms[..j]);
            && k <= |items|
            && TakeAll(c, items, before, ms[..j + 1])
               == (if k == |items| then p
                   else Pass(p.dest[Target(items[k]) := ms[j].data], p.written[k := true],
                             p.warned || Mismatch(c, items[k].entry, ms[j].data)))
            && (k < |items| ==> Unwritten(p.written[k := true]) + 1 == Unwritten(p.written))
  {
    var p := TakeAll(c, items, before, ms[..j]);
    assert ms[..j + 1][..j] == ms[..j];
    if k < |items| { OneFewerUnwritten(p.written, k); }
  }

  /** With every item written no member is wanted. */
  lemma {:induction false} NothingLeft(c: Codec, items: seq<Needed>, before: map<Bytes, Bytes>, ms: seq<Member>, j: nat)
    requires j <= |ms| && (Unwritten(TakeAll(c, items, before, ms[..j]).written) == 0 || j == |ms|)
    ensures TakeAll(c, items, before, ms[..j]) == TakeAll(c, items, before, ms)
  {
    hide Take, Wants;
    if j == |ms| {
      assert ms[..j] == ms;
    } else {
      var init, m := ms[..|ms| - 1], ms[|ms| - 1];
      assert init[..j] == ms[..j];
      NothingLeft(c, items, before, init, j);
      var p := TakeAll(c, items, before, init);
      assert FirstFrom(items, p.written, m, 0) == |items|;
      TakenBy(c, items, p, m);
    }
  }

  lemma TakenBy(c: Codec, items: seq<Needed>, p: Pass, m: Member)
    requires |p.written| == |items|
    ensures Take(c, items, p, m, |items|) == p
  {}

  // ---------------------------------------------------------------- what a pass comes to

  lemma NotSeenBefore(ms: seq<Member>, m: Member)
    requires DistinctMembers(ms + [m])
    ensures DistinctMembers(ms) && forall x :: x in ms ==> x.path != m.path
  {
    var all := ms + [m];
    assert forall i :: 0 <= i < |ms| ==> all[i] == ms[i];
    assert all[|ms|] == m;
  }

  /** When no pathname and no target repeats, exactly the items found are marked, each lies at its target with the
      member's bytes, nothing else is written, and a warning means a mismatch. */
  lemma {:induction false} TakeAllPassed(c: Codec, items: seq<Needed>, before: map<Bytes, Bytes>, ms: seq<Member>)
    requires Matchable(ms, items)
    ensures Passed(c, ms, items, before, TakeAll(c, items, before, ms))
  {
    if ms == [] {
      NothingPassed(c, items, before);
    } else {
      var init, m := ms[..|ms| - 1], ms[|ms| - 1];
      assert ms == init + [m];
      NotSeenBefore(init, m);
      var p := TakeAll(c, items, before, init);
      var k := FirstFrom(items, p.written, m, 0);
      hide Passed, Take, Wants, Target, TakeAll, FirstFrom;
      TakeAllPassed(c, items, before, init);
      TakenLast(c, items, before, ms);
      TakeOne(c, init, items, before, p, m, k);
    }
  }

  lemma TakenLast(c: Codec, items: seq<Needed>, before: map<Bytes, Bytes>, ms: seq<Member>)
    requires ms != []
    ensures var p, m := TakeAll(c, items, before, ms[..|ms| - 1]), ms[|ms| - 1];
            TakeAll(c, items, before, ms) == Take(c, items, p, m, FirstFrom(items, p.written, m, 0))
  {}

  lemma NothingPassed(c: Codec, items: seq<Needed>, before: map<Bytes, Bytes>)
    ensures Passed(c, [], items, before, TakeAll(c, items, before, []))
  {}

  lemma {:induction false} AllUnwritten(n: nat)
    ensures Unwritten(seq(n, _ => false)) == n
  {
    if n > 0 {
      assert seq(n, _ => false)[..n - 1] == seq(n - 1, _ => false);
      AllUnwritten(n - 1);
    }
  }

  lemma TakeOne(c: Codec, ms: seq<Member>, items: seq<Needed>, before: map<Bytes, Bytes>, p: Pass, m: Member, k: nat)
    requires Passed(c, ms, items, before, p) && FirstWanting(items, p.written, m, k)
    requires forall x :: x in ms ==> x.path != m.path
    requires forall i, j :: 0 <= i < j < |items| ==> items[i].entry.path != items[j].entry.path
    requires forall i, j :: 0 <= i < j < |items| ==> Target(items[i]) != Target(items[j])
    ensures Passed(c, ms + [m], items, before, Take(c, items, p, m, k))
  {
    var q := Take(c, items, p, m, k);
    assert forall i :: 0 <= i < |items| ==> (Wants(items[i], m) ==> !p.written[i]);
    assert forall i :: 0 <= i < |items| ==> (Wants(items[i], m) <==> i == k);
    if k < |items| { MismatchOrChecks(c, items[k].entry, m.data); }
    hide Mismatch, Checks, Target;
    TakeMarked(ms, items, p, q, m, k);
    TakePlaced(ms, items, p, q, m, k);
    TakeUntouched(items, before, p, q, m, k);
    TakeWarned(c, ms, items, p, q, m, k);
  }

  /** Only item `k` wants the member, and takes it. */
  ghost predicate Took(items: seq<Needed>, p: Pass, q: Pass, m: Member, k: nat) {
    && k <= |items| == |p.written| == |q.written|
    && (forall i :: 0 <= i < |items| ==> (Wants(items[i], m) <==> i == k))
    && (if k == |items| then q == p
        else q.dest == p.dest[Target(items[k]) := m.data] && q.written == p.written[k := true])
  }

  lemma TakeMarked(ms: seq<Member>, items: seq<Needed>, p: Pass, q: Pass, m: Member, k: nat)
    requires Marked(ms, items, p) && Took(items, p, q, m, k)
    ensures Marked(ms + [m], items, q)
  {
    hide Wants;
    forall i | 0 <= i < |items| ensures q.written[i] <==> Found(ms + [m], items[i]) {
      FoundMore(ms, m, items[i]);
    }
  }

  lemma FoundMore(ms: seq<Member>, m: Member, nd: Needed)
    ensures Found(ms + [m], nd) <==> Found(ms, nd) || Wants(nd, m)
  {
    hide Wants;
    if Wants(nd, m) { assert m in ms + [m]; }
    if x :| x in ms && Wants(nd, x) { assert x in ms + [m]; }
  }

  lemma TakePlaced(ms: seq<Member>, items: seq<Needed>, p: Pass, q: Pass, m: Member, k: nat)
    requires Placed(ms, items, p) && Took(items, p, q, m, k)
    requires forall i, j :: 0 <= i < j < |items| ==> Target(items[i]) != Target(items[j])
    requires forall x :: x in ms ==> x.path != m.path
    ensures Placed(ms + [m], items, q)
  {
    hide Target;
    forall i, x | 0 <= i < |items| && x in ms + [m] && Wants(items[i], x)
      ensures Target(items[i]) in q.dest && q.dest[Target(items[i])] == x.data
    {
      if x in ms { assert i != k; }
    }
  }

  lemma TakeUntouched(items: seq<Needed>, before: map<Bytes, Bytes>, p: Pass, q: Pass, m: Member, k: nat)
    requires Untouched(items, before, p) && k <= |items| == |p.written|
    requires if k == |items| then q == p
             else q.dest == p.dest[Target(items[k]) := m.data] && q.written == p.written[k := true]
    ensures Untouched(items, before, q)
  {
    hide Target;
    if k < |items| {
      forall x | && x in q.dest
                 && (forall i :: 0 <= i < |items| && i < |q.written| && q.written[i] ==> Target(items[i]) != x)
        ensures x in before && q.dest[x] == before[x]
      {
        assert q.written[k];
        assert forall i :: 0 <= i < |items| && p.written[i] ==> q.written[i];
      }
    }
  }

  lemma TakeWarned(c: Codec, ms: seq<Member>, items: seq<Needed>, p: Pass, q: Pass, m: Member, k: nat)
    requires WarnedRight(c, ms, items, p) && Took(items, p, q, m, k)
    requires k < |items| ==> (q.warned <==> p.warned || !Checks(c, items[k].entry, m.data))
    ensures WarnedRight(c, ms + [m], items, q)
  {
    hide Checks, Wants;
    if i, x :| 0 <= i < |items| && x in ms && Wants(items[i], x) && !Checks(c, items[i].entry, x.data) {
      assert x in ms + [m];
    }
    if k < |items| && !Checks(c, items[k].entry, m.data) { assert m in ms + [m] && Wants(items[k], m); }
    if i, x :| 0 <= i < |items| && x in ms + [m] && Wants(items[i], x) && !Checks(c, items[i].entry, x.data) {
      if x !in ms { assert i == k; }
    }
  }

  lemma MismatchOrChecks(c: Codec, e: Entry, data: Bytes)
    ensures Mismatch(c, e, data) <==> !Checks(c, e, data)
  {}

  // ---------------------------------------------------------------- whatever the archive holds

  /** The bytes are those of a member with the item's pathname. */
  ghost predicate FromMember(ms: seq<Member>, nd: Needed, data: Bytes) {
    exists m :: m in ms && m.path == nd.entry.path && m.data == data
  }

  ghost predicate TargetsApart(items: seq<Needed>) {
    forall i, j :: 0 <= i < j < |items| ==> Target(items[i]) != Target(items[j])
  }

  /** Item `k` was written, but with bytes of another size or hash than its entry says. */
  ghost predicate WrittenWrong(c: Codec, items: seq<Needed>, p: Pass, k: nat)
    requires |p.written| == |items|
  {
    && k < |items| && p.written[k] && Target(items[k]) in p.dest
    && var e, data := items[k].entry, p.dest[Target(items[k])];
       |data| != e.size || (e.sha != "" && c.sha(data) != e.sha)
  }

  /** Each item written has bytes of a member of its pathname, and a warning means that some are wrong. */
  ghost predicate Taken(c: Codec, ms: seq<Member>, items: seq<Needed>, p: Pass) {
    && |p.written| == |items|
    && (forall k :: 0 <= k < |items| && p.written[k] ==>
          Target(items[k]) in p.dest && FromMember(ms, items[k], p.dest[Target(items[k])]))
    && (p.warned <==> exists k: nat :: WrittenWrong(c, items, p, k))
  }

  lemma NothingTaken(c: Codec, items: seq<Needed>, before: map<Bytes, Bytes>)
    ensures var p := TakeAll(c, items, before, []); Taken(c, [], items, p) && Untouched(items, before, p)
  {}

  lemma FromMore(ms: seq<Member>, m: Member, nd: Needed, data: Bytes)
    ensures FromMember(ms, nd, data) ==> FromMember(ms + [m], nd, data)
    ensures m.path == nd.entry.path ==> FromMember(ms + [m], nd, m.data)
  {
    assert m in ms + [m];
    if x :| x in ms && x.path == nd.entry.path && x.data == data { assert x in ms + [m]; }
  }

  /** One item more has been written, with the bytes of `m`. */
  lemma TakeOneMore(c: Codec, ms: seq<Member>, items: seq<Needed>, p: Pass, m: Member, k: nat)
    requires TargetsApart(items) && Taken(c, ms, items, p) && k < |items| && !p.written[k] && Wants(items[k], m)
    ensures Taken(c, ms + [m], items, Take(c, items, p, m, k))
  {
    var q := Take(c, items, p, m, k);
    hide Target, FromMember;
    forall i | 0 <= i < |items| && q.written[i]
      ensures Target(items[i]) in q.dest && FromMember(ms + [m], items[i], q.dest[Target(items[i])])
    {
      FromMore(ms, m, items[i], q.dest[Target(items[i])]);
    }
    WrongMore(c, items, p, q, m, k);
  }

  lemma WrongMore(c: Codec, items: seq<Needed>, p: Pass, q: Pass, m: Member, k: nat)
    requires TargetsApart(items) && |p.written| == |items| && k < |items| && !p.written[k]
    requires q == Take(c, items, p, m, k)
    requires p.warned <==> exists i: nat :: WrittenWrong(c, items, p, i)
    ensures q.warned <==> exists i: nat :: WrittenWrong(c, items, q, i)
  {
    hide Target;
    forall i: nat ensures WrittenWrong(c, items, q, i) <==>
      WrittenWrong(c, items, p, i) || (i == k && Mismatch(c, items[k].entry, m.data)) {}
    hide WrittenWrong, Mismatch;
    if Mismatch(c, items[k].entry, m.data) { assert WrittenWrong(c, items, q, k); }
  }

  /** After a pass over any archive, with any items that have targets of their own: what was written is of a member
      wanted, nothing else was touched, and a warning was given exactly if some of it is wrong. */
  lemma {:induction false} TakeAllTaken(c: Codec, items: seq<Needed>, before: map<Bytes, Bytes>, ms: seq<Member>)
    requires TargetsApart(items)
    ensures var p := TakeAll(c, items, before, ms); Taken(c, ms, items, p) && Untouched(items, before, p)
  {
    hide Take, Wants, Target, TakeAll, Taken, Untouched, TargetsApart;
    if ms == [] {
      NothingTaken(c, items, before);
    } else {
      var init, m := ms[..|ms| - 1], ms[|ms| - 1];
      assert ms == init + [m];
      TakeAllTaken(c, items, before, init);
      TakenLast(c, items, before, ms);
      var p := TakeAll(c, items, before, init);
      var k := FirstFrom(items, p.written, m, 0);
      if k < |items| { TakeOneMore(c, init, items, p, m, k); } else { TakenMoreMembers(c, init, items, p, m, k); }
      TakeUntouchedBy(c, items, before, p, m, k);
    }
  }

  lemma TakenMoreMembers(c: Codec, ms: seq<Member>, items: seq<Needed>, p: Pass, m: Member, k: nat)
    requires Taken(c, ms, items, p) && k == |items|
    ensures Taken(c, ms + [m], items, Take(c, items, p, m, k))
  {
    hide Target, FromMember, WrittenWrong;
    forall i | 0 <= i < |items| && p.written[i]
      ensures Target(items[i]) in p.dest && FromMember(ms + [m], items[i], p.dest[Target(items[i])])
    {
      FromMore(ms, m, items[i], p.dest[Target(items[i])]);
    }
  }

  lemma TakeUntouchedBy(c: Codec, items: seq<Needed>, before: map<Bytes, Bytes>, p: Pass, m: Member, k: nat)
    requires Untouched(items, before, p) && k <= |items| == |p.written|
    ensures Untouched(items, before, Take(c, items, p, m, k))
  {
    hide Untouched;
    TakeUntouched(items, before, p, Take(c, items, p, m, k), m, k);
  }
}
