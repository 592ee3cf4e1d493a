/** `remove_if`, `unique` and `reverse` of intrusive_forward_list, on the links themselves. */
module ForwardListRemove {
  import opened NodeLists

  /** No hook of a list occurs twice. */
  ghost predicate Once(a: nat, ns: seq<nat>) {
    forall x: nat {:trigger Cnt(ns, x)} :: Cnt(ns, x) + (if x == a then 1 else 0) <= 1
  }

  /** The list still has the nodes kept and the nodes not yet looked at; the nodes taken out link to nothing. */
  ghost predicate Walk(next: seq<nat>, a: nat, ns: seq<nat>, d: seq<nat>, r: seq<nat>, gone: seq<nat>) {
    && Seg(next, a, d + r, |next|) && Once(a, ns)
    && (forall x: nat {:trigger Cnt(ns, x)} :: Cnt(d, x) + Cnt(r, x) + Cnt(gone, x) == Cnt(ns, x))
    && (forall x: nat {:trigger Cnt(gone, x)} :: x < |next| && Cnt(gone, x) > 0 ==> next[x] == |next|)
  }

  /** Only links of the list have changed. */
  ghost predicate Local(was: seq<nat>, next: seq<nat>, a: nat, ns: seq<nat>) {
    |next| == |was| && forall x: nat :: x < |next| && x != a && !Has(ns, x) ==> next[x] == was[x]
  }

  lemma Start(next: seq<nat>, a: nat, ns: seq<nat>)
    requires Seg(next, a, ns, |next|) && Once(a, ns)
    ensures Walk(next, a, ns, [], ns, []) && Local(next, next, a, ns)
  {
    var none: seq<nat> := [];
    assert none + ns == ns;
    forall x: nat ensures Cnt(none, x) == 0 {}
  }

  /** Where a walk is. */
  lemma Standing(next: seq<nat>, a: nat, ns: seq<nat>, d: seq<nat>, r: seq<nat>, gone: seq<nat>)
    requires Walk(next, a, ns, d, r, gone)
    ensures Seg(next, a, d, First(r, |next|)) && Seg(next, Last(a, d), r, |next|)
    ensures Last(a, d) < |next| && next[Last(a, d)] == First(r, |next|)
    ensures r != [] ==> r[0] < |next| && next[r[0]] == First(r[1..], |next|)
  {
    SegSplit(next, a, d, r, |next|);
    SegLast(next, a, d, First(r, |next|));
  }

  /** A node is passed over. */
  lemma Passed(next: seq<nat>, a: nat, ns: seq<nat>, d: seq<nat>, r: seq<nat>, gone: seq<nat>)
    requires Walk(next, a, ns, d, r, gone) && r != []
    ensures Walk(next, a, ns, d + [r[0]], r[1..], gone)
  {
    assert (d + [r[0]]) + r[1..] == d + r;
    forall x: nat ensures Cnt(d + [r[0]], x) + Cnt(r[1..], x) == Cnt(d, x) + Cnt(r, x) {
      CntAppend(d, [r[0]], x);
      CntHead(r[0], [], x);
      assert [r[0]] + [] == [r[0]];
    }
  }

  /** A node is taken out: the link to it now goes past it, and its own is null. */
  lemma Unlinked(next: seq<nat>, a: nat, ns: seq<nat>, d: seq<nat>, r: seq<nat>, gone: seq<nat>)
    requires Walk(next, a, ns, d, r, gone) && r != [] && r[0] < |next| && Last(a, d) < |next|
    ensures var next' := next[r[0] := |next|][Last(a, d) := next[r[0]]];
      Walk(next', a, ns, d, r[1..], [r[0]] + gone)
    ensures Has(ns, r[0]) && (Last(a, d) == a || Has(ns, Last(a, d)))
  {
    var x0, last, rest, nil := r[0], Last(a, d), r[1..], |next|;
    var next' := next[x0 := nil][last := next[x0]];
    Standing(next, a, ns, d, r, gone);
    Unshared(a, ns, d, r, gone);
    SegRedirect(next, next', a, d, x0, First(rest, nil));
    if rest != [] {
      forall x: nat | Has(rest[1..], x) ensures Has(rest, x) {
        CntCons(rest, x);
      }
      SegFrame(next, next', rest[0], rest[1..], nil);
    }
    SegSplit(next', a, d, rest, nil);
    forall x: nat ensures Cnt([x0] + gone, x) == Cnt(gone, x) + if x == x0 then 1 else 0 {
      CntHead(x0, gone, x);
    }
  }

  /** Which hooks the two links that change belong to. */
  lemma Unshared(a: nat, ns: seq<nat>, d: seq<nat>, r: seq<nat>, gone: seq<nat>)
    requires Once(a, ns) && r != []
    requires forall x: nat {:trigger Cnt(ns, x)} :: Cnt(d, x) + Cnt(r, x) + Cnt(gone, x) == Cnt(ns, x)
    ensures forall x: nat :: Cnt([a] + d, x) <= 1
    ensures !Has([a] + d, r[0]) && !Has(r[1..], r[0]) && !Has(gone, r[0]) && Has(ns, r[0]) && r[0] != a
    ensures !Has(r, Last(a, d)) && !Has(gone, Last(a, d)) && (Last(a, d) == a || Has(ns, Last(a, d)))
    ensures forall x: nat :: Has(r[1..], x) ==> x != r[0] && x != Last(a, d)
    ensures r[1..] != [] ==> r[1..][0] != r[0] && r[1..][0] != Last(a, d)
  {
    forall x: nat
      ensures Cnt([a] + d, x) == Cnt(d, x) + if x == a then 1 else 0
      ensures Cnt(r, x) == Cnt(r[1..], x) + if x == r[0] then 1 else 0
      ensures Cnt(d, x) + Cnt(r, x) + Cnt(gone, x) + (if x == a then 1 else 0) <= 1
    {
      CntHead(a, d, x);
      assert Cnt(ns, x) + (if x == a then 1 else 0) <= 1;
    }
    if d != [] {
      LastIn(a, d);
    }
    if r[1..] != [] {
      assert Has(r[1..], r[1..][0]);
    }
  }

  // -------------------------------------------------------------- remove_if

  function Without(pred: nat -> bool, ns: seq<nat>): seq<nat> {
    if ns == [] then [] else if pred(ns[0]) then Without(pred, ns[1..]) else [ns[0]] + Without(pred, ns[1..])
  }

  /** Exactly the nodes that do not satisfy the predicate. */
  lemma {:induction false} WithoutCounts(pred: nat -> bool, ns: seq<nat>, x: nat)
    ensures Cnt(Without(pred, ns), x) == if pred(x) then 0 else Cnt(ns, x)
  {
    if ns != [] {
      WithoutCounts(pred, ns[1..], x);
      CntHead(ns[0], Without(pred, ns[1..]), x);
    }
  }

  /** ys are the nodes at the positions ks, which increase: some of ns in their old order. */
  ghost predicate Picks(ns: seq<nat>, ks: seq<nat>, ys: seq<nat>) {
    && |ks| == |ys|
    && (forall j :: 0 <= j < |ks| ==> ks[j] < |ns| && ys[j] == ns[ks[j]])
    && (forall i, j :: 0 <= i < j < |ks| ==> ks[i] < ks[j])
  }

  ghost predicate Picked(ks: seq<nat>, i: nat) {
    exists j :: 0 <= j < |ks| && ks[j] == i
  }

  ghost function Later(ks: seq<nat>): (r: seq<nat>)
    ensures |r| == |ks| && forall j :: 0 <= j < |ks| ==> r[j] == ks[j] + 1
  {
    seq(|ks|, j requires 0 <= j < |ks| => ks[j] + 1)
  }

  lemma PicksLater(ns: seq<nat>, ks: seq<nat>, ys: seq<nat>)
    requires ns != [] && Picks(ns[1..], ks, ys)
    ensures Picks(ns, Later(ks), ys) && Picks(ns, [0] + Later(ks), [ns[0]] + ys)
  {}

  lemma PickedLater(ks: seq<nat>, i: nat)
    ensures Picked(Later(ks), i) <==> i > 0 && Picked(ks, i - 1)
    ensures Picked([0] + Later(ks), i) <==> i == 0 || Picked(ks, i - 1)
  {
    var ls := Later(ks);
    if i == 0 {
      assert ([0] + ls)[0] == i;
    } else if Picked(ks, i - 1) {
      var j :| 0 <= j < |ks| && ks[j] == i - 1;
      assert ls[j] == i && ([0] + ls)[j + 1] == i;
    } else {
      forall j | 0 <= j < |ls| + 1 ensures ([0] + ls)[j] != i {
        if j > 0 {
          assert ks[j - 1] != i - 1;
        }
      }
    }
  }

  /** In their old order, exactly the positions that do not satisfy the predicate. */
  lemma {:induction false} WithoutKeeps(pred: nat -> bool, ns: seq<nat>) returns (ks: seq<nat>)
    ensures Picks(ns, ks, Without(pred, ns))
    ensures forall i: nat :: i < |ns| ==> (Picked(ks, i) <==> !pred(ns[i]))
  {
    ks := [];
    if ns != [] {
      var rest := WithoutKeeps(pred, ns[1..]);
      PicksLater(ns, rest, Without(pred, ns[1..]));
      ks := if pred(ns[0]) then Later(rest) else [0] + Later(rest);
      forall i: nat | i < |ns| ensures Picked(ks, i) <==> !pred(ns[i]) {
        PickedLater(rest, i);
        if i > 0 {
          assert ns[1..][i - 1] == ns[i];
        }
      }
    }
  }

  method RemoveIf(next: array<nat>, a: nat, pred: nat -> bool, ghost ns: seq<nat>) returns (count: nat)
    requires Seg(next[..], a, ns, next.Length) && Once(a, ns)
    modifies next
    ensures Seg(next[..], a, Without(pred, ns), next.Length) && count == |ns| - |Without(pred, ns)|
    ensures forall x: nat :: x < next.Length && Has(ns, x) && pred(x) ==> next[x] == next.Length
    ensures Local(old(next[..]), next[..], a, ns)
  {
    Start(next[..], a, ns);
    ghost var d, r, gone := [], ns, [];
    Standing(next[..], a, ns, d, r, gone);
    count := 0;
    var before := a;
    var head := next[a];
    while head != next.Length
      invariant Walk(next[..], a, ns, d, r, gone) && Local(old(next[..]), next[..], a, ns)
      invariant before == Last(a, d) && head == First(r, next.Length)
      invariant d + Without(pred, r) == Without(pred, ns) && count + |d| + |r| == |ns|
      decreases |r|
    {
      assert r != [];
      Standing(next[..], a, ns, d, r, gone);
      ghost var was := next[..];
      if pred(head) {
        Unlinked(was, a, ns, d, r, gone);
        var after := next[head];
        next[head] := next.Length;
        next[before] := after;
        head := after;
        count := count + 1;
        assert next[..] == was[r[0] := |was|][before := was[r[0]]];
        gone := [r[0]] + gone;
      } else {
        Passed(was, a, ns, d, r, gone);
        Regroup(d, r[0], Without(pred, r[1..]));
        before := head;
        head := next[head];
        d := d + [r[0]];
      }
      r := r[1..];
    }
    Ended(next[..], a, ns, d, r, gone);
    forall x: nat | x < next.Length && Has(ns, x) && pred(x)
      ensures next[x] == next.Length
    {
      WithoutCounts(pred, ns, x);
      assert d + Without(pred, []) == d;
      assert Cnt(ns, x) > 0 && Cnt(d, x) == 0 && Cnt(gone, x) > 0;
    }
  }

  lemma Regroup(d: seq<nat>, x: nat, rest: seq<nat>)
    ensures d + ([x] + rest) == (d + [x]) + rest
  {}

  /** At the null link nothing is left to look at. */
  lemma Ended(next: seq<nat>, a: nat, ns: seq<nat>, d: seq<nat>, r: seq<nat>, gone: seq<nat>)
    requires Walk(next, a, ns, d, r, gone) && First(r, |next|) == |next|
    ensures r == [] && Seg(next, a, d, |next|) && forall x: nat :: Cnt(d, x) + Cnt(gone, x) == Cnt(ns, x)
  {
    Standing(next, a, ns, d, r, gone);
    assert d + [] == d;
  }

  // -------------------------------------------------------------- unique

  /** What is kept of the nodes after one that was kept. */
  function Differing(same: (nat, nat) -> bool, kept: nat, r: seq<nat>): seq<nat>
    decreases r
  {
    if r == [] then []
    else if same(kept, r[0]) then Differing(same, kept, r[1..])
    else [r[0]] + Differing(same, r[0], r[1..])
  }

  function UniqueOf(same: (nat, nat) -> bool, ns: seq<nat>): seq<nat> {
    if ns == [] then [] else [ns[0]] + Differing(same, ns[0], ns[1..])
  }

  /** No node left is the same as the one before it. */
  lemma {:induction false} NeighboursDiffer(same: (nat, nat) -> bool, kept: nat, r: seq<nat>, i: nat)
    requires i < |Differing(same, kept, r)|
    ensures var u := [kept] + Differing(same, kept, r); !same(u[i], u[i + 1])
    decreases |r|
  {
    if same(kept, r[0]) {
      NeighboursDiffer(same, kept, r[1..], i);
    } else if i > 0 {
      NeighboursDiffer(same, r[0], r[1..], i - 1);
    }
  }

  /** The nodes behind position k and before `end` are the same as the one at k. */
  ghost predicate Joins(same: (nat, nat) -> bool, ns: seq<nat>, k: nat, end: nat) {
    k < |ns| && forall i :: k < i < end && i < |ns| ==> same(ns[k], ns[i])
  }

  /** Where the run of the node kept j-th ends. */
  ghost function RunEnd(ns: seq<nat>, ks: seq<nat>, j: nat): nat {
    if j + 1 < |ks| then ks[j + 1] else |ns|
  }

  /** Every node behind a kept one goes as long as it is the same as that, and the next one is kept. */
  ghost predicate Run(same: (nat, nat) -> bool, ns: seq<nat>, k: nat, end: nat) {
    Joins(same, ns, k, end) && (end < |ns| ==> !same(ns[k], ns[end]))
  }

  ghost predicate Runs(same: (nat, nat) -> bool, ns: seq<nat>, ks: seq<nat>) {
    forall j {:trigger RunEnd(ns, ks, j)} :: 0 <= j < |ks| ==> Run(same, ns, ks[j], RunEnd(ns, ks, j))
  }

  lemma RunsPrepend(same: (nat, nat) -> bool, ns: seq<nat>, k: nat, ks: seq<nat>, all: seq<nat>)
    requires ks != [] && Runs(same, ns, ks) && Run(same, ns, k, ks[0]) && all == [k] + ks
    ensures Runs(same, ns, all)
  {
    forall j | 0 <= j < |all| ensures Run(same, ns, all[j], RunEnd(ns, all, j)) {
      if j > 0 {
        assert all[j] == ks[j - 1] && RunEnd(ns, all, j) == RunEnd(ns, ks, j - 1);
      }
    }
  }

  lemma PicksPrepend(ns: seq<nat>, k: nat, ks: seq<nat>, ys: seq<nat>)
    requires Picks(ns, ks, ys) && k < |ns| && (ks != [] ==> k < ks[0])
    ensures Picks(ns, [k] + ks, [ns[k]] + ys)
  {}

  /** The last run. */
  lemma LastRun(same: (nat, nat) -> bool, ns: seq<nat>, k: nat)
    requires Joins(same, ns, k, |ns|)
    ensures Runs(same, ns, [k]) && Picks(ns, [k], [ns[k]])
  {}

  /** From position i on, where everything behind k so far was the same as the node at k. */
  lemma {:induction false} KeptFrom(same: (nat, nat) -> bool, ns: seq<nat>, k: nat, i: nat) returns (ks: seq<nat>)
    requires k < i <= |ns| && Joins(same, ns, k, i)
    ensures ks != [] && ks[0] == k && Runs(same, ns, ks)
    ensures Picks(ns, ks, [ns[k]] + Differing(same, ns[k], ns[i..]))
    decreases |ns| - i
  {
    var d := Differing(same, ns[k], ns[i..]);
    if i == |ns| {
      ks := [k];
      LastRun(same, ns, k);
      assert [ns[k]] + d == [ns[k]];
    } else {
      assert ns[i..][1..] == ns[i + 1..];
      if same(ns[k], ns[i]) {
        ks := KeptFrom(same, ns, k, i + 1);
      } else {
        var rest := KeptFrom(same, ns, i, i + 1);
        ks := [k] + rest;
        RunsPrepend(same, ns, k, rest, ks);
        PicksPrepend(ns, k, rest, d);
      }
    }
  }

  /** What is kept, in its old order: the first node, and from then on the first of every run. */
  lemma UniqueKeeps(same: (nat, nat) -> bool, ns: seq<nat>) returns (ks: seq<nat>)
    ensures Picks(ns, ks, UniqueOf(same, ns)) && Runs(same, ns, ks)
    ensures if ns == [] then ks == [] else ks != [] && ks[0] == 0
  {
    if ns == [] {
      ks := [];
    } else {
      ks := KeptFrom(same, ns, 0, 1);
    }
  }

  ghost predicate Equivalence(same: (nat, nat) -> bool) {
    && (forall x :: same(x, x)) && (forall x, y :: same(x, y) ==> same(y, x))
    && (forall x, y, z :: same(x, y) && same(y, z) ==> same(x, z))
  }

  /** The run a position is in. */
  lemma {:induction false} RunOf(ns: seq<nat>, ks: seq<nat>, i: nat, n: nat) returns (j: nat)
    requires 0 < n <= |ks| && ks[0] == 0 && i < (if n < |ks| then ks[n] else |ns|)
    ensures j < n && ks[j] <= i < RunEnd(ns, ks, j)
  {
    if ks[n - 1] <= i {
      j := n - 1;
    } else {
      j := RunOf(ns, ks, i, n - 1);
    }
  }

  /** Under an equivalence a node behind the first stays exactly if it is not the same as the one before it. */
  lemma UniqueIff(same: (nat, nat) -> bool, ns: seq<nat>, ks: seq<nat>, i: nat)
    requires Equivalence(same) && Picks(ns, ks, UniqueOf(same, ns)) && Runs(same, ns, ks)
    requires 0 < i < |ns| && ks != [] && ks[0] == 0
    ensures Picked(ks, i) <==> !same(ns[i - 1], ns[i])
  {
    var j := RunOf(ns, ks, i - 1, |ks|);
    assert Run(same, ns, ks[j], RunEnd(ns, ks, j));
    assert same(ns[ks[j]], ns[i - 1]);
    Neighbours(same, ns[ks[j]], ns[i - 1], ns[i]);
    if i < RunEnd(ns, ks, j) {
      NotPicked(ks, j, i);
    } else {
      assert ks[j + 1] == i;
    }
  }

  lemma NotPicked(ks: seq<nat>, j: nat, i: nat)
    requires forall x, y :: 0 <= x < y < |ks| ==> ks[x] < ks[y]
    requires j < |ks| && ks[j] < i && (j + 1 < |ks| ==> i < ks[j + 1])
    ensures !Picked(ks, i)
  {
    forall k | 0 <= k < |ks| ensures ks[k] != i {
      assert k < j ==> ks[k] < ks[j];
      assert k > j + 1 ==> ks[j + 1] < ks[k];
    }
  }

  lemma Neighbours(same: (nat, nat) -> bool, x: nat, y: nat, z: nat)
    requires Equivalence(same) && same(x, y)
    ensures same(y, z) <==> same(x, z)
  {
    assert same(y, x);
  }

  method Unique(next: array<nat>, a: nat, same: (nat, nat) -> bool, ghost ns: seq<nat>) returns (count: nat)
    requires Seg(next[..], a, ns, next.Length) && Once(a, ns)
    modifies next
    ensures Seg(next[..], a, UniqueOf(same, ns), next.Length) && count == |ns| - |UniqueOf(same, ns)|
    ensures forall x: nat :: x < next.Length && Has(ns, x) && !Has(UniqueOf(same, ns), x) ==> next[x] == next.Length
    ensures Local(old(next[..]), next[..], a, ns)
  {
    Start(next[..], a, ns);
    Standing(next[..], a, ns, [], ns, []);
    count := 0;
    var head := next[a];
    if head == next.Length {
      Ended(next[..], a, ns, [], ns, []);
      return;
    }
    Passed(next[..], a, ns, [], ns, []);
    ghost var d, r, gone := [] + [ns[0]], ns[1..], [];
    var after := next[head];
    while after != next.Length
      invariant d != [] && Walk(next[..], a, ns, d, r, gone) && Local(old(next[..]), next[..], a, ns)
      invariant head == Last(a, d) && after == First(r, next.Length)
      invariant d + Differing(same, head, r) == UniqueOf(same, ns) && count + |d| + |r| == |ns|
      decreases |r|
    {
      assert r != [];
      Standing(next[..], a, ns, d, r, gone);
      ghost var was := next[..];
      if same(head, after) {
        Unlinked(was, a, ns, d, r, gone);
        var later := next[after];
        next[after] := next.Length;
        next[head] := later;
        after := later;
        count := count + 1;
        assert next[..] == was[r[0] := |was|][head := was[r[0]]];
        gone := [r[0]] + gone;
      } else {
        Passed(was, a, ns, d, r, gone);
        Regroup(d, r[0], Differing(same, r[0], r[1..]));
        head := after;
        after := next[after];
        d := d + [r[0]];
      }
      r := r[1..];
    }
    Ended(next[..], a, ns, d, r, gone);
    forall x: nat | x < next.Length && Has(ns, x) && !Has(UniqueOf(same, ns), x)
      ensures next[x] == next.Length
    {
      assert d + Differing(same, head, []) == d;
      assert Cnt(ns, x) > 0 && Cnt(d, x) == 0 && Cnt(gone, x) > 0;
    }
  }

  // -------------------------------------------------------------- reverse

  function Reversed(ns: seq<nat>): seq<nat> {
    if ns == [] then [] else Reversed(ns[1..]) + [ns[0]]
  }

  lemma {:induction false} ReversedAt(ns: seq<nat>, k: nat)
    requires k < |ns|
    ensures |Reversed(ns)| == |ns| && Reversed(ns)[k] == ns[|ns| - 1 - k]
  {
    if |ns| > 1 {
      ReversedAt(ns[1..], if k < |ns| - 1 then k else 0);
    }
  }

  /** The nodes ns in a chain that ends in null, without a head. */
  ghost predicate Chain(next: seq<nat>, ns: seq<nat>) {
    ns != [] ==> Seg(next, ns[0], ns[1..], |next|)
  }

  /** The nodes passed are chained backwards, and those to come still forwards. */
  ghost predicate Turning(next: seq<nat>, a: nat, ns: seq<nat>, back: seq<nat>, r: seq<nat>) {
    && Chain(next, back) && Chain(next, r) && Once(a, ns) && Reversed(r) + back == Reversed(ns)
    && forall x: nat {:trigger Cnt(ns, x)} :: Cnt(back, x) + Cnt(r, x) == Cnt(ns, x)
  }

  /** One link turned round. */
  lemma Turned(next: seq<nat>, a: nat, ns: seq<nat>, back: seq<nat>, r: seq<nat>)
    requires Turning(next, a, ns, back, r) && r != [] && r[0] < |next|
    ensures next[r[0]] == First(r[1..], |next|) && Has(ns, r[0]) && r[0] != a
    ensures Turning(next[r[0] := First(back, |next|)], a, ns, [r[0]] + back, r[1..])
  {
    var x0, next' := r[0], next[r[0] := First(back, |next|)];
    assert ([x0] + back)[1..] == back;
    forall x: nat
      ensures Cnt([x0] + back, x) == Cnt(back, x) + if x == x0 then 1 else 0
      ensures Cnt(r, x) == Cnt(r[1..], x) + if x == x0 then 1 else 0
      ensures Cnt(ns, x) + (if x == a then 1 else 0) <= 1
    {
      CntHead(x0, back, x);
    }
    assert !Has(back, x0) && !Has(r[1..], x0) by { assert Cnt(ns, x0) <= 1; }
    ChainFrame(next, next', back, x0);
    ChainFrame(next, next', r[1..], x0);
    Regroup(Reversed(r[1..]), x0, back);
  }

  lemma ChainFrame(next: seq<nat>, next': seq<nat>, ns: seq<nat>, x0: nat)
    requires Chain(next, ns) && |next'| == |next| && !Has(ns, x0)
    requires forall x: nat :: x < |next| && x != x0 ==> next'[x] == next[x]
    ensures Chain(next', ns)
  {
    if ns != [] {
      assert Has(ns, ns[0]);
      forall x: nat | Has(ns[1..], x) ensures x != x0 {
        CntCons(ns, x);
      }
      SegFrame(next, next', ns[0], ns[1..], |next|);
    }
  }

  lemma TurningStarts(next: seq<nat>, a: nat, ns: seq<nat>)
    requires Seg(next, a, ns, |next|) && Once(a, ns)
    ensures Turning(next, a, ns, [], ns) && Local(next, next, a, ns)
  {
    var none: seq<nat> := [];
    assert Reversed(ns) + none == Reversed(ns);
    forall x: nat ensures Cnt(none, x) == 0 {}
  }

  /** The head gets the last node as its first. */
  lemma TurningEnds(next: seq<nat>, a: nat, ns: seq<nat>, back: seq<nat>, r: seq<nat>)
    requires Turning(next, a, ns, back, r) && First(r, |next|) == |next| && back != [] && a < |next|
    ensures Seg(next[a := back[0]], a, Reversed(ns), |next|)
  {
    assert r == [];
    assert Reversed(r) + back == back;
    assert !Has(back, a) by { assert Cnt(ns, a) + 1 <= 1; }
    ChainFrame(next, next[a := back[0]], back, a);
  }

  method Reverse(next: array<nat>, a: nat, ghost ns: seq<nat>)
    requires Seg(next[..], a, ns, next.Length) && Once(a, ns)
    modifies next
    ensures Seg(next[..], a, Reversed(ns), next.Length) && Local(old(next[..]), next[..], a, ns)
  {
    var current := next[a];
    if current == next.Length {
      Start(next[..], a, ns);
      Ended(next[..], a, ns, [], ns, []);
      return;
    }
    TurningStarts(next[..], a, ns);
    ghost var back, r := [], ns;
    var prev := next.Length;
    while true
      invariant r != [] && a < next.Length && Turning(next[..], a, ns, back, r) && Local(old(next[..]), next[..], a, ns)
      invariant prev == First(back, next.Length) && current == First(r, next.Length) < next.Length
      decreases |r|
    {
      ghost var was := next[..];
      Turned(was, a, ns, back, r);
      var after := next[current];
      next[current] := prev;
      assert next[..] == was[r[0] := First(back, |was|)];
      back, r := [r[0]] + back, r[1..];
      if after == next.Length {
        break;
      }
      prev := current;
      current := after;
    }
    TurningEnds(next[..], a, ns, back, r);
    ghost var last := next[..];
    next[a] := current;
    assert next[..] == last[a := back[0]];
  }
}
