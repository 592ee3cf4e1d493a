/** `sort` of intrusive_forward_list: a binary counter of sorted bins, on links. */
module ForwardListSort {
  import opened Arithmetic
  import opened NodeLists
  import opened StableMerge
  import opened ForwardList

  // -------------------------------------------------------------- many lists in one table

  /** How often a hook occurs in all lists. */
  function Total(lists: seq<seq<nat>>, x: nat): nat {
    if lists == [] then 0 else Total(lists[..|lists| - 1], x) + Cnt(lists[|lists| - 1], x)
  }

  ghost predicate AtMostOnce(heads: seq<nat>, lists: seq<seq<nat>>, x: nat) {
    Cnt(heads, x) + Total(lists, x) <= 1
  }

  /** Every head leads through its nodes to null, and no hook is in two places. */
  ghost predicate Lists(next: seq<nat>, heads: seq<nat>, lists: seq<seq<nat>>) {
    && |heads| == |lists|
    && (forall j :: 0 <= j < |heads| ==> Seg(next, heads[j], lists[j], |next|))
    && (forall x: nat :: AtMostOnce(heads, lists, x))
    && Cnt(heads, |next|) + Total(lists, |next|) == 0
  }

  lemma {:induction false} TotalUpdate(lists: seq<seq<nat>>, i: nat, ns: seq<nat>, x: nat)
    requires i < |lists|
    ensures Total(lists[i := ns], x) + Cnt(lists[i], x) == Total(lists, x) + Cnt(ns, x)
  {
    var m := |lists| - 1;
    if i < m {
      TotalUpdate(lists[..m], i, ns, x);
      assert lists[i := ns][..m] == lists[..m][i := ns];
    } else {
      assert lists[i := ns][..m] == lists[..m];
    }
  }

  lemma {:induction false} TotalOne(lists: seq<seq<nat>>, i: nat, x: nat)
    requires i < |lists|
    ensures Cnt(lists[i], x) <= Total(lists, x)
  {
    if i < |lists| - 1 {
      TotalOne(lists[..|lists| - 1], i, x);
    }
  }

  lemma TotalTwo(lists: seq<seq<nat>>, i: nat, j: nat, x: nat)
    requires i < |lists| && j < |lists| && i != j
    ensures Cnt(lists[i], x) + Cnt(lists[j], x) <= Total(lists, x)
  {
    TotalUpdate(lists, i, [], x);
    TotalOne(lists[i := []], j, x);
  }

  lemma {:induction false} HeadsDiffer(heads: seq<nat>, i: nat, j: nat)
    requires i < j < |heads| && Cnt(heads, heads[i]) <= 1
    ensures heads[i] != heads[j]
  {
    if i > 0 {
      CntCons(heads, heads[i]);
      assert heads[1..][i - 1] == heads[i];
      HeadsDiffer(heads[1..], i - 1, j - 1);
    } else {
      AtHas(heads[1..], j - 1);
      assert heads[1..][j - 1] == heads[j];
    }
  }

  /** Different lists have nothing in common. */
  lemma ListsApart(next: seq<nat>, heads: seq<nat>, lists: seq<seq<nat>>, i: nat, j: nat)
    requires Lists(next, heads, lists) && i < |heads| && j < |heads| && i != j
    ensures TwoLists(heads[i], lists[i], heads[j], lists[j], |next|)
    ensures heads[i] != heads[j] && heads[i] < |next| && heads[j] < |next|
  {
    AtHas(heads, i);
    AtHas(heads, j);
    assert AtMostOnce(heads, lists, heads[i]) && AtMostOnce(heads, lists, heads[j]);
    if i < j { HeadsDiffer(heads, i, j); } else { HeadsDiffer(heads, j, i); }
    forall x: nat ensures ApartAt(heads[i], [], lists[i], heads[j], [], lists[j], x) {
      TotalTwo(lists, i, j, x);
      assert AtMostOnce(heads, lists, x);
    }
    TotalOne(lists, i, |next|);
    TotalOne(lists, j, |next|);
    assert Seg(next, heads[i], lists[i], |next|) && Seg(next, heads[j], lists[j], |next|);
  }

  /** A third list is not touched by what happens to two. */
  lemma Bystander(next: seq<nat>, next': seq<nat>, heads: seq<nat>, lists: seq<seq<nat>>, i: nat, j: nat, k: nat)
    requires Lists(next, heads, lists) && i < |heads| && j < |heads| && k < |heads| && i != j && k != i && k != j
    requires Untouched(next, next', heads[i], lists[i], heads[j], lists[j])
    ensures Seg(next', heads[k], lists[k], |next|)
  {
    ListsApart(next, heads, lists, k, i);
    ListsApart(next, heads, lists, k, j);
    forall x: nat
      ensures Has(lists[k], x) || x == heads[k] ==>
        x != heads[i] && x != heads[j] && !Has(lists[i], x) && !Has(lists[j], x)
    {
      assert ApartAt(heads[k], [], lists[k], heads[i], [], lists[i], x);
      assert ApartAt(heads[k], [], lists[k], heads[j], [], lists[j], x);
    }
    SegFrame(next, next', heads[k], lists[k], |next|);
  }

  /** Two lists change, keeping their nodes between them. */
  lemma TwoChange(next: seq<nat>, next': seq<nat>, heads: seq<nat>, lists: seq<seq<nat>>, i: nat, j: nat,
                  xs: seq<nat>, ys: seq<nat>)
    requires Lists(next, heads, lists) && i < |heads| && j < |heads| && i != j
    requires Untouched(next, next', heads[i], lists[i], heads[j], lists[j])
    requires Seg(next', heads[i], xs, |next|) && Seg(next', heads[j], ys, |next|)
    requires forall x: nat :: Cnt(xs, x) + Cnt(ys, x) == Cnt(lists[i], x) + Cnt(lists[j], x)
    ensures Lists(next', heads, lists[i := xs][j := ys])
  {
    var lists' := lists[i := xs][j := ys];
    forall k | 0 <= k < |heads| ensures Seg(next', heads[k], lists'[k], |next'|) {
      if k != i && k != j {
        Bystander(next, next', heads, lists, i, j, k);
      }
    }
    forall x: nat ensures Total(lists', x) == Total(lists, x) {
      TotalUpdate(lists, i, xs, x);
      TotalUpdate(lists[i := xs], j, ys, x);
      assert Cnt(xs, x) + Cnt(ys, x) == Cnt(lists[i], x) + Cnt(lists[j], x);
    }
    forall x: nat ensures AtMostOnce(heads, lists', x) {
      assert AtMostOnce(heads, lists, x);
    }
  }

  lemma {:induction false} MergeCnt(less: (nat, nat) -> bool, xs: seq<nat>, ys: seq<nat>, x: nat)
    ensures Cnt(Merge(less, xs, ys), x) == Cnt(xs, x) + Cnt(ys, x)
    decreases |xs| + |ys|
  {
    if xs != [] && ys != [] {
      MergeHead(less, xs, ys);
      CntCons(Merge(less, xs, ys), x);
      if less(ys[0], xs[0]) {
        MergeCnt(less, xs, ys[1..], x);
        CntCons(ys, x);
      } else {
        MergeCnt(less, xs[1..], ys, x);
        CntCons(xs, x);
      }
    }
  }

  // -------------------------------------------------------------- operations on the lists

  method MergeLists(next: array<nat>, heads: seq<nat>, i: nat, j: nat, less: (nat, nat) -> bool,
                    ghost lists: seq<seq<nat>>)
    requires Lists(next[..], heads, lists) && i < |heads| && j < |heads| && i != j && Sorted(less, lists[j])
    modifies next
    ensures Lists(next[..], heads, lists[i := Merge(less, lists[i], lists[j])][j := []])
  {
    ListsApart(next[..], heads, lists, i, j);
    ghost var before := next[..];
    MergeInto(next, heads[i], heads[j], less, lists[i], lists[j]);
    forall x: nat ensures Cnt(Merge(less, lists[i], lists[j]), x) + Cnt([], x) == Cnt(lists[i], x) + Cnt(lists[j], x) {
      MergeCnt(less, lists[i], lists[j], x);
    }
    TwoChange(before, next[..], heads, lists, i, j, Merge(less, lists[i], lists[j]), []);
  }

  /** swap exchanges what the heads point to. */
  method SwapLists(next: array<nat>, heads: seq<nat>, i: nat, j: nat, ghost lists: seq<seq<nat>>)
    requires Lists(next[..], heads, lists) && i < |heads| && j < |heads| && i != j
    modifies next
    ensures Lists(next[..], heads, lists[i := lists[j]][j := lists[i]])
  {
    ListsApart(next[..], heads, lists, i, j);
    ListsApart(next[..], heads, lists, j, i);
    ghost var before := next[..];
    next[heads[i]], next[heads[j]] := next[heads[j]], next[heads[i]];
    Relinked(before, next[..], heads[i], lists[i], heads[j], lists[j]);
    Relinked(before, next[..], heads[j], lists[j], heads[i], lists[i]);
    TwoChange(before, next[..], heads, lists, i, j, lists[j], lists[i]);
  }

  /** A list hung on another head. */
  lemma Relinked(next: seq<nat>, next': seq<nat>, a: nat, xs: seq<nat>, b: nat, ys: seq<nat>)
    requires Seg(next, a, xs, |next|) && TwoLists(a, xs, b, ys, |next|) && |next'| == |next| && a != b
    requires b < |next| && next'[b] == next[a] && forall x: nat :: x < |next| && x != a && x != b ==>
      next'[x] == next[x]
    ensures Seg(next', b, xs, |next|)
  {
    if xs != [] {
      forall x: nat | Has(xs, x) && x < |next| ensures next'[x] == next[x] {
        assert ApartAt(a, [], xs, b, [], ys, x);
      }
      AtHas(xs, 0);
      forall x: nat | Has(xs[1..], x) && x < |next| ensures next'[x] == next[x] {
        CntCons(xs, x);
        assert Has(xs, x);
      }
      SegFrame(next, next', xs[0], xs[1..], |next|);
    }
  }

  /** splice_after of the first node of list i to the front of the empty list j. */
  method MoveFirst(next: array<nat>, heads: seq<nat>, i: nat, j: nat, ghost lists: seq<seq<nat>>)
    requires Lists(next[..], heads, lists) && i < |heads| && j < |heads| && i != j && lists[i] != [] && lists[j] == []
    modifies next
    ensures Lists(next[..], heads, lists[i := lists[i][1..]][j := [lists[i][0]]])
  {
    ghost var xs := lists[i];
    ListsApart(next[..], heads, lists, i, j);
    ghost var before := next[..];
    assert Seg(before, heads[i], xs, |before|) && Seg(before, heads[j], [], |before|);
    assert Seg(before, xs[0], xs[1..], |before|);
    AtHas(xs, 0);
    assert ApartAt(heads[i], [], xs, heads[j], [], [], xs[0]);
    var first := next[heads[i]];
    next[heads[i]] := next[first];
    next[first] := next[heads[j]];
    next[heads[j]] := first;
    Unhooked(before, next[..], heads[i], xs, heads[j]);
    forall x: nat ensures Cnt(xs[1..], x) + Cnt([xs[0]], x) == Cnt(xs, x) + Cnt([], x) {
      CntCons(xs, x);
    }
    TwoChange(before, next[..], heads, lists, i, j, xs[1..], [xs[0]]);
  }

  lemma Unhooked(next: seq<nat>, next': seq<nat>, a: nat, xs: seq<nat>, b: nat)
    requires Seg(next, a, xs, |next|) && TwoLists(a, xs, b, [], |next|) && |next'| == |next| && a != b && xs != []
    requires b < |next| && next[b] == |next| && xs[0] < |next|
    requires next' == next[a := next[xs[0]]][xs[0] := |next|][b := xs[0]]
    ensures Seg(next', a, xs[1..], |next|) && Seg(next', b, [xs[0]], |next|)
  {
    var y := xs[0];
    AtHas(xs, 0);
    assert ApartAt(a, [], xs, b, [], [], y);
    assert next'[y] == |next| && next'[a] == next[y] && next'[b] == y;
    var rest := xs[1..];
    if rest != [] {
      CntCons(xs, y);
      forall x: nat | Has(rest, x) && x < |next| ensures next'[x] == next[x] {
        CntCons(xs, x);
        assert ApartAt(a, [], xs, b, [], [], x) && ApartAt(a, [], xs, b, [], [], y);
      }
      AtHas(rest, 0);
      forall x: nat | Has(rest[1..], x) && x < |next| ensures next'[x] == next[x] {
        CntCons(rest, x);
        assert Has(rest, x);
      }
      SegFrame(next, next', rest[0], rest[1..], |next|);
    }
  }

  // -------------------------------------------------------------- the binary counter

  const LIST: nat := 0
  const CARRY: nat := 1

  /** Bin i is list 2 + i; it holds nothing, or the sorted run of the 2^i elements from e[i + 1] to e[i]. */
  ghost predicate Bin(less: (nat, nat) -> bool, lists: seq<seq<nat>>, ns: seq<nat>, e: seq<nat>, i: nat)
    requires 2 + i < |lists| && i + 1 < |e|
  {
    && e[i + 1] <= e[i] <= |ns| && (e[i] == e[i + 1] || e[i] - e[i + 1] == Pow2(i))
    && lists[2 + i] == SortOf(less, ns[e[i + 1]..e[i]])
  }

  /** Bins from `low` on; later elements of the input are in lower bins, and bins from `filled` on are empty. */
  ghost predicate Bins(less: (nat, nat) -> bool, lists: seq<seq<nat>>, ns: seq<nat>, e: seq<nat>, low: nat, filled: nat)
  {
    && |lists| >= 2 && |e| == |lists| - 1 && filled < |e| && e[filled] == e[|e| - 1] == 0
    && forall i: nat :: low <= i < |e| - 1 ==> Bin(less, lists, ns, e, i)
  }

  /** m elements have been taken from the list and are in the bins. */
  ghost predicate Counting(less: (nat, nat) -> bool, lists: seq<seq<nat>>, ns: seq<nat>, e: seq<nat>, m: nat,
    filled: nat)
  {
    && Bins(less, lists, ns, e, 0, filled)
    && e[0] == m <= |ns| && lists[LIST] == ns[m..] && lists[CARRY] == []
  }

  /** The carry holds a run of 2^i elements, up to the m-th, and the bins below i are empty. */
  ghost predicate Cascading(less: (nat, nat) -> bool, lists: seq<seq<nat>>, ns: seq<nat>, e: seq<nat>, m: nat,
                            filled: nat, i: nat)
  {
    && Bins(less, lists, ns, e, i, filled) && i < |e| && i <= filled
    && e[i] <= m <= |ns| && m - e[i] == Pow2(i)
    && lists[LIST] == ns[m..] && lists[CARRY] == SortOf(less, ns[e[i]..m])
    && forall j: nat :: j < i ==> Vacant(lists, j)
  }

  predicate Vacant(lists: seq<seq<nat>>, j: nat) {
    2 + j < |lists| && lists[2 + j] == []
  }

  lemma BinSize(less: (nat, nat) -> bool, lists: seq<seq<nat>>, ns: seq<nat>, e: seq<nat>, i: nat)
    requires 2 + i < |lists| && i + 1 < |e| && Bin(less, lists, ns, e, i)
    ensures |lists[2 + i]| == e[i] - e[i + 1]
  {
    SortLength(less, ns[e[i + 1]..e[i]]);
  }

  /** Two neighbouring runs merge to the run of both. */
  lemma RunsMerge(less: (nat, nat) -> bool, ns: seq<nat>, lo: nat, mid: nat, hi: nat)
    requires StrictWeakOrder(less) && lo <= mid <= hi <= |ns|
    ensures Merge(less, SortOf(less, ns[lo..mid]), SortOf(less, ns[mid..hi])) == SortOf(less, ns[lo..hi])
    ensures Sorted(less, SortOf(less, ns[mid..hi]))
  {
    SortAppend(less, ns[lo..mid], ns[mid..hi]);
    assert ns[lo..hi] == ns[lo..mid] + ns[mid..hi];
    SortIsStable(less, ns[mid..hi]);
  }

  /** The first element goes to the carry. */
  lemma Extracted(less: (nat, nat) -> bool, lists: seq<seq<nat>>, ns: seq<nat>, e: seq<nat>, m: nat, filled: nat)
    requires Counting(less, lists, ns, e, m, filled) && m < |ns|
    ensures Cascading(less, lists[LIST := lists[LIST][1..]][CARRY := [lists[LIST][0]]], ns, e, m + 1, filled, 0)
  {
    var lists' := lists[LIST := lists[LIST][1..]][CARRY := [lists[LIST][0]]];
    forall i: nat | i < |e| - 1 ensures Bin(less, lists', ns, e, i) {
      assert Bin(less, lists, ns, e, i);
    }
    assert ns[m..m + 1] == [ns[m]] && [ns[m]][..0] == [];
    assert SortOf(less, [ns[m]]) == Merge(less, SortOf(less, []), [ns[m]]) == [ns[m]];
  }

  /** An occupied bin takes the carry, and what it then has is the new carry. */
  lemma Cascaded(less: (nat, nat) -> bool, lists: seq<seq<nat>>, ns: seq<nat>, e: seq<nat>, m: nat, filled: nat, i: nat)
    requires StrictWeakOrder(less) && Cascading(less, lists, ns, e, m, filled, i) && i < filled && lists[2 + i] != []
    ensures Sorted(less, lists[CARRY])
    ensures var merged := lists[2 + i := Merge(less, lists[2 + i], lists[CARRY])][CARRY := []];
      Cascading(less, merged[CARRY := merged[2 + i]][2 + i := merged[CARRY]], ns, e, m, filled, i + 1)
  {
    assert Bin(less, lists, ns, e, i);
    BinSize(less, lists, ns, e, i);
    RunsMerge(less, ns, e[i + 1], e[i], m);
    var merged := lists[2 + i := Merge(less, lists[2 + i], lists[CARRY])][CARRY := []];
    var lists' := merged[CARRY := merged[2 + i]][2 + i := merged[CARRY]];
    forall j: nat | i + 1 <= j < |e| - 1 ensures Bin(less, lists', ns, e, j) {
      assert Bin(less, lists, ns, e, j);
    }
    forall j: nat | j < i + 1 ensures Vacant(lists', j) {
      assert j < i ==> Vacant(lists, j);
    }
  }

  /** The carry goes into a free bin, which ends the run of the bins below at the m-th element. */
  lemma Stored(less: (nat, nat) -> bool, lists: seq<seq<nat>>, ns: seq<nat>, e: seq<nat>, m: nat, filled: nat, i: nat)
    returns (e': seq<nat>)
    requires Cascading(less, lists, ns, e, m, filled, i) && |ns| < Pow2(|e| - 1)
    requires i < filled ==> lists[2 + i] == []
    ensures i < |e| - 1
    ensures |e'| == |e|
    ensures Counting(less, lists[CARRY := lists[2 + i]][2 + i := lists[CARRY]], ns, e', m,
                     if i == filled then filled + 1 else filled)
  {
    assert i < |e| - 1;
    assert Bin(less, lists, ns, e, i);
    BinSize(less, lists, ns, e, i);
    e' := seq(|e|, j requires 0 <= j < |e| => if j <= i then m else e[j]);
    var lists' := lists[CARRY := lists[2 + i]][2 + i := lists[CARRY]];
    forall j: nat | j < |e| - 1 ensures Bin(less, lists', ns, e', j) {
      if j >= i {
        assert Bin(less, lists, ns, e, j);
      } else {
        assert Vacant(lists, j) && ns[m..m] == [];
      }
    }
  }

  // -------------------------------------------------------------- sort

  const BINS: nat := 64

  /** One element counted into the bins. */
  method Insert(next: array<nat>, heads: seq<nat>, less: (nat, nat) -> bool, filled0: nat, ghost lists0: seq<seq<nat>>,
                ghost ns: seq<nat>, ghost e0: seq<nat>, ghost m: nat)
    returns (filled: nat, ghost lists: seq<seq<nat>>, ghost e: seq<nat>)
    requires StrictWeakOrder(less) && Lists(next[..], heads, lists0) && Counting(less, lists0, ns, e0, m, filled0)
    requires m < |ns| < Pow2(|heads| - 2) && |heads| >= 2
    modifies next
    ensures Lists(next[..], heads, lists) && Counting(less, lists, ns, e, m + 1, filled)
    ensures |e| == |e0| && filled > 0
  {
    Extracted(less, lists0, ns, e0, m, filled0);
    MoveFirst(next, heads, LIST, CARRY, lists0);
    lists := lists0[LIST := lists0[LIST][1..]][CARRY := [lists0[LIST][0]]];
    var i;
    i, lists := Cascade(next, heads, less, filled0, lists, ns, e0, m + 1);
    e := Stored(less, lists, ns, e0, m + 1, filled0, i);
    SwapLists(next, heads, CARRY, 2 + i, lists);
    lists := lists[CARRY := lists[2 + i]][2 + i := lists[CARRY]];
    filled := if i == filled0 then filled0 + 1 else filled0;
  }

  /** The carry goes up through the occupied bins, merging as it goes. */
  method Cascade(next: array<nat>, heads: seq<nat>, less: (nat, nat) -> bool, filled: nat, ghost lists0: seq<seq<nat>>,
                 ghost ns: seq<nat>, ghost e: seq<nat>, ghost m: nat)
    returns (i: nat, ghost lists: seq<seq<nat>>)
    requires StrictWeakOrder(less) && Lists(next[..], heads, lists0) && Cascading(less, lists0, ns, e, m, filled, 0)
    modifies next
    ensures Lists(next[..], heads, lists) && Cascading(less, lists, ns, e, m, filled, i)
    ensures i < filled ==> lists[2 + i] == []
  {
    i, lists := 0, lists0;
    while i < filled && next[heads[2 + i]] != next.Length
      invariant Lists(next[..], heads, lists) && Cascading(less, lists, ns, e, m, filled, i)
    {
      assert lists[2 + i] != [];
      Cascaded(less, lists, ns, e, m, filled, i);
      MergeLists(next, heads, 2 + i, CARRY, less, lists);
      ghost var merged := lists[2 + i := Merge(less, lists[2 + i], lists[CARRY])][CARRY := []];
      SwapLists(next, heads, CARRY, 2 + i, merged);
      lists := merged[CARRY := merged[2 + i]][2 + i := merged[CARRY]];
      i := i + 1;
    }
    if i < filled {
      NoNodes(next[..], heads, lists, 2 + i);
    }
  }

  /** A list whose head leads to null is empty. */
  lemma NoNodes(next: seq<nat>, heads: seq<nat>, lists: seq<seq<nat>>, i: nat)
    requires Lists(next, heads, lists) && i < |heads| && next[heads[i]] == |next|
    ensures lists[i] == []
  {
    assert Seg(next, heads[i], lists[i], |next|);
    TotalOne(lists, i, |next|);
    HasAt(lists[i], |next|, 0);
  }

  /** What the last loop keeps: the run from e[i] to the end is in bin i - 1. */
  ghost predicate Collecting(less: (nat, nat) -> bool, lists: seq<seq<nat>>, ns: seq<nat>, e: seq<nat>, filled: nat,
    i: nat)
  {
    && Bins(less, lists, ns, e, i, filled) && 1 <= i <= filled && e[i] <= |ns|
    && lists[2 + i - 1] == SortOf(less, ns[e[i]..]) && lists[LIST] == []
  }

  lemma Collected(less: (nat, nat) -> bool, lists: seq<seq<nat>>, ns: seq<nat>, e: seq<nat>, filled: nat, i: nat)
    requires StrictWeakOrder(less) && Collecting(less, lists, ns, e, filled, i) && i < filled
    ensures Sorted(less, lists[2 + i - 1])
    ensures Collecting(less, lists[2 + i := Merge(less, lists[2 + i], lists[2 + i - 1])][2 + i - 1 := []],
                       ns, e, filled, i + 1)
  {
    assert Bin(less, lists, ns, e, i);
    RunsMerge(less, ns, e[i + 1], e[i], |ns|);
    assert ns[e[i]..|ns|] == ns[e[i]..] && ns[e[i + 1]..|ns|] == ns[e[i + 1]..];
    var lists' := lists[2 + i := Merge(less, lists[2 + i], lists[2 + i - 1])][2 + i - 1 := []];
    forall j: nat | i + 1 <= j < |e| - 1 ensures Bin(less, lists', ns, e, j) {
      assert Bin(less, lists, ns, e, j);
    }
  }

  /** All bins merged into the largest. */
  method Collect(next: array<nat>, heads: seq<nat>, less: (nat, nat) -> bool, filled: nat, ghost lists0: seq<seq<nat>>,
                 ghost ns: seq<nat>, ghost e: seq<nat>) returns (ghost lists: seq<seq<nat>>)
    requires StrictWeakOrder(less) && Lists(next[..], heads, lists0) && Counting(less, lists0, ns, e, |ns|, filled)
    requires filled > 0
    modifies next
    ensures Lists(next[..], heads, lists) && |lists| == |lists0| && filled + 1 < |lists|
    ensures lists[LIST] == [] && lists[2 + filled - 1] == SortOf(less, ns)
  {
    lists := lists0;
    assert Bin(less, lists, ns, e, 0) && ns[e[1]..|ns|] == ns[e[1]..];
    for i := 1 to filled
      invariant Lists(next[..], heads, lists) && |lists| == |lists0| && Collecting(less, lists, ns, e, filled, i)
    {
      Collected(less, lists, ns, e, filled, i);
      MergeLists(next, heads, 2 + i, 2 + i - 1, less, lists);
      lists := lists[2 + i := Merge(less, lists[2 + i], lists[2 + i - 1])][2 + i - 1 := []];
    }
    assert ns[0..] == ns;
  }

  /** The list that is sorted, with the carry and the bins of the function empty beside it. */
  function OneList(ns: seq<nat>): (lists: seq<seq<nat>>) {
    seq(BINS + 2, j => if j == LIST then ns else [])
  }

  /**
   sort: the nodes of the list in the stable order of the comparison (see SortResult).
   `heads` are the hooks of the list, of `carry` and of the bins.  Fewer than 2^64 nodes fit the bins.
   */
  method Sort(next: array<nat>, heads: seq<nat>, less: (nat, nat) -> bool, ghost ns: seq<nat>)
    requires StrictWeakOrder(less) && Lists(next[..], heads, OneList(ns)) && |ns| < Pow2(BINS)
    modifies next
    ensures Seg(next[..], heads[LIST], SortOf(less, ns), next.Length)
  {
    assert Seg(next[..], heads[LIST], ns, next.Length);
    if next[heads[LIST]] == next.Length {
      NoNodes(next[..], heads, OneList(ns), LIST);
      return;
    }
    assert ns != [] && Seg(next[..], ns[0], ns[1..], next.Length);
    if next[next[heads[LIST]]] == next.Length {
      Single(next[..], heads, less, ns);
      return;
    }
    SortMany(next, heads, less, ns);
  }

  method SortMany(next: array<nat>, heads: seq<nat>, less: (nat, nat) -> bool, ghost ns: seq<nat>)
    requires StrictWeakOrder(less) && Lists(next[..], heads, OneList(ns)) && 0 < |ns| < Pow2(BINS)
    modifies next
    ensures Seg(next[..], heads[LIST], SortOf(less, ns), next.Length)
  {
    ghost var lists, e;
    var filled;
    filled, lists, e := CountAll(next, heads, less, ns);
    lists := Collect(next, heads, less, filled, lists, ns, e);
    SwapLists(next, heads, LIST, 2 + filled - 1, lists);
    lists := lists[LIST := lists[2 + filled - 1]][2 + filled - 1 := lists[LIST]];
    assert Seg(next[..], heads[LIST], lists[LIST], next.Length);
  }

  /** The loop that empties the list into the bins. */
  method CountAll(next: array<nat>, heads: seq<nat>, less: (nat, nat) -> bool, ghost ns: seq<nat>)
    returns (filled: nat, ghost lists: seq<seq<nat>>, ghost e: seq<nat>)
    requires StrictWeakOrder(less) && Lists(next[..], heads, OneList(ns)) && 0 < |ns| < Pow2(BINS)
    modifies next
    ensures Lists(next[..], heads, lists) && Counting(less, lists, ns, e, |ns|, filled) && filled > 0
  {
    filled, lists := 0, OneList(ns);
    ghost var m := 0;
    e := seq(BINS + 1, j => 0);
    NothingCounted(less, ns);
    while next[heads[LIST]] != next.Length
      invariant Lists(next[..], heads, lists) && Counting(less, lists, ns, e, m, filled) && |e| == BINS + 1
      invariant m > 0 ==> filled > 0
      decreases |ns| - m
    {
      assert Seg(next[..], heads[LIST], lists[LIST], next.Length);
      filled, lists, e := Insert(next, heads, less, filled, lists, ns, e, m);
      m := m + 1;
    }
    NoNodes(next[..], heads, lists, LIST);
  }

  lemma Single(next: seq<nat>, heads: seq<nat>, less: (nat, nat) -> bool, ns: seq<nat>)
    requires Lists(next, heads, OneList(ns)) && ns != [] && Seg(next, heads[LIST], ns, |next|)
    requires ns[0] < |next| && next[ns[0]] == |next|
    ensures |ns| == 1 && SortOf(less, ns) == ns
  {
    TotalOne(OneList(ns), LIST, |next|);
    assert Seg(next, ns[0], ns[1..], |next|);
    HasAt(ns, |next|, if |ns| > 1 then 1 else |ns|);
    assert ns[..0] == [] && SortOf(less, ns) == Merge(less, SortOf(less, []), [ns[0]]);
  }

  lemma NothingCounted(less: (nat, nat) -> bool, ns: seq<nat>)
    ensures Counting(less, OneList(ns), ns, seq(BINS + 1, j => 0), 0, 0)
  {
    var e: seq<nat> := seq(BINS + 1, j => 0);
    forall i: nat | i < |e| - 1 ensures Bin(less, OneList(ns), ns, e, i) {
      assert ns[0..0] == [];
    }
    assert ns[0..] == ns;
  }

  /** The result of sort: sorted, the same nodes, and nodes that compare level in their old order. */
  lemma SortResult(less: (nat, nat) -> bool, ns: seq<nat>)
    requires StrictWeakOrder(less)
    ensures Sorted(less, SortOf(less, ns)) && multiset(SortOf(less, ns)) == multiset(ns)
    ensures forall v :: Level(less, SortOf(less, ns), v) == Level(less, ns, v)
  {
    SortIsStable(less, ns);
  }
}
