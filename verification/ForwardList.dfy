/**
 `splice_after`, `merge` and `sort` of intrusive_forward_list, on the links themselves.  Any number of lists share
 one table of links; no node is ever in two of them.
 */
module ForwardList {
  import opened NodeLists
  import opened StableMerge

  // -------------------------------------------------------------- splice_after

  /** The nodes p after `first` and before `last` are moved behind `pos`; there are none if the two are the same. */
  method SpliceAfter(next: array<nat>, pos: nat, first: nat, last: nat, ghost p: seq<nat>)
    requires pos < next.Length && (first != last ==> Seg(next[..], first, p, last) && !Has(p, last))
    modifies next
    ensures first == last ==> next[..] == old(next[..])
    ensures first != last ==> Last(first, p) < next.Length && next[..] == Spliced(old(next[..]), pos, first, p, last)
  {
    if first == last {
      return;
    }
    SegLast(next[..], first, p, last);
    var after := next[first];
    if after == last {
      HasAt(p, last, 0);
      return;
    }
    var prevLast := after;
    after := next[after];
    ghost var i := 0;
    while after != last
      invariant i < |p| && prevLast == p[i] && Seg(next[..], p[i], p[i + 1..], last)
      invariant after == First(p[i + 1..], last) && next[..] == old(next[..])
      decreases |p| - i
    {
      assert p[i + 1..][0] == p[i + 1] && p[i + 1..][1..] == p[i + 2..];
      prevLast := after;
      after := next[after];
      i := i + 1;
    }
    HasAt(p, last, i + 1);
    var head := next[first];
    next[first] := after;
    next[prevLast] := next[pos];
    next[pos] := head;
  }

  lemma {:induction false} HasAt(p: seq<nat>, x: nat, i: nat)
    requires i <= |p| && !Has(p, x) && (i < |p| ==> p[i] == x)
    ensures i == |p|
  {
    if i < |p| {
      AtHas(p, i);
    }
  }

  lemma {:induction false} AtHas(p: seq<nat>, i: nat)
    requires i < |p|
    ensures Has(p, p[i])
  {
    if i > 0 {
      AtHas(p[1..], i - 1);
      assert p[1..][i - 1] == p[i];
    }
  }

  // -------------------------------------------------------------- merge

  lemma Cons(x: nat, a: seq<nat>, b: seq<nat>)
    ensures [x] + (a + b) == ([x] + a) + b
    ensures (([x] + a) + b)[0] == x && (([x] + a) + b)[1..] == a + b
  {}

  /** A run of the other's elements that are less than the receiver's next one is taken at once. */
  lemma {:induction false} MergeRun(less: (nat, nat) -> bool, c: seq<nat>, p: seq<nat>, r: seq<nat>)
    requires c != [] && forall j :: 0 <= j < |p| ==> less(p[j], c[0])
    ensures Merge(less, c, p + r) == p + Merge(less, c, r)
    decreases |p|
  {
    if p == [] {
      assert p + r == r;
    } else {
      MergeRun(less, c, p[1..], r);
      assert p == [p[0]] + p[1..];
      Cons(p[0], p[1..], r);
      Cons(p[0], p[1..], Merge(less, c, r));
    }
  }

  /** ... and once it is in the receiver it is passed over, for what remains is not less than it. */
  lemma {:induction false} MergePast(less: (nat, nat) -> bool, c: seq<nat>, p: seq<nat>, r: seq<nat>)
    requires r == [] || forall j :: 0 <= j < |p| ==> !less(r[0], p[j])
    ensures Merge(less, p + c, r) == p + Merge(less, c, r)
    decreases |p|
  {
    if p == [] {
      assert p + c == c;
    } else if r == [] {
      assert Merge(less, c, r) == c;
    } else {
      MergePast(less, c, p[1..], r);
      assert p == [p[0]] + p[1..];
      Cons(p[0], p[1..], c);
      Cons(p[0], p[1..], Merge(less, c, r));
    }
  }

  /** bb moves over the receiver's elements that the other's first one is not less than. */
  method Advance(next: array<nat>, at: nat, y: nat, less: (nat, nat) -> bool, ghost a: nat, ghost d0: seq<nat>,
                 ghost c0: seq<nat>, ghost ys: seq<nat>)
    returns (bb: nat, bbNext: nat, ghost d: seq<nat>, ghost c: seq<nat>)
    requires at == Last(a, d0) && Seg(next[..], at, c0, next.Length) && ys != [] && y == ys[0]
    requires !Has(c0, next.Length)
    ensures bb == Last(a, d) && Seg(next[..], bb, c, next.Length) && bbNext == First(c, next.Length)
    ensures d + c == d0 + c0 && d + Merge(less, c, ys) == d0 + Merge(less, c0, ys)
    ensures c == [] || less(y, c[0])
    ensures bbNext == next.Length <==> c == []
  {
    bb, d, c := at, d0, c0;
    bbNext := next[bb];
    while bbNext != next.Length && !less(y, bbNext)
      invariant bb == Last(a, d) && Seg(next[..], bb, c, next.Length) && bbNext == First(c, next.Length)
      invariant d + c == d0 + c0 && d + Merge(less, c, ys) == d0 + Merge(less, c0, ys) && !Has(c, next.Length)
      decreases |c|
    {
      StepOver(less, d, c, ys);
      CntCons(c, next.Length);
      bb := bbNext;
      d, c := d + [c[0]], c[1..];
      bbNext := next[bb];
    }
    if c != [] { AtHas(c, 0); }
  }

  lemma StepOver(less: (nat, nat) -> bool, d: seq<nat>, c: seq<nat>, ys: seq<nat>)
    requires c != [] && ys != [] && !less(ys[0], c[0])
    ensures (d + [c[0]]) + c[1..] == d + c
    ensures (d + [c[0]]) + Merge(less, c[1..], ys) == d + Merge(less, c, ys)
  {
    MergeHead(less, c, ys);
    Shift(d, c[0], Merge(less, c[1..], ys));
    Shift(d, c[0], c[1..]);
    assert [c[0]] + c[1..] == c;
  }

  lemma Shift(d: seq<nat>, x: nat, rest: seq<nat>)
    ensures (d + [x]) + rest == d + ([x] + rest)
  {}

  /** ibx moves over the other's elements that are less than the receiver's next one, of which there is one. */
  method TakeRun(next: array<nat>, b: nat, x: nat, less: (nat, nat) -> bool, ghost ys: seq<nat>)
    returns (last: nat, ghost p: seq<nat>, ghost r: seq<nat>)
    requires Seg(next[..], b, ys, next.Length) && ys != [] && less(ys[0], x) && !Has(ys, next.Length)
    ensures p != [] && p + r == ys && last == First(r, next.Length)
    ensures forall j :: 0 <= j < |p| ==> less(p[j], x)
  {
    var ibx := next[b];
    last := next[ibx];
    p, r := [ys[0]], ys[1..];
    CntCons(ys, next.Length);
    while last != next.Length && less(last, x)
      invariant p != [] && p + r == ys && last == First(r, next.Length) && !Has(r, next.Length)
      invariant Seg(next[..], p[|p| - 1], r, next.Length)
      invariant forall j :: 0 <= j < |p| ==> less(p[j], x)
      decreases |r|
    {
      CntCons(r, next.Length);
      ibx := last;
      p, r := p + [r[0]], r[1..];
      last := next[ibx];
    }
  }

  /** What the loop of merge keeps: d is settled, c is the rest of the receiver, ys the rest of the other. */
  ghost predicate Merging(next: seq<nat>, a: nat, b: nat, less: (nat, nat) -> bool, xs: seq<nat>, zs: seq<nat>,
                          d: seq<nat>, c: seq<nat>, ys: seq<nat>)
  {
    && Seg(next, a, d + c, |next|) && Seg(next, b, ys, |next|)
    && (forall x: nat :: Cnt(d, x) + Cnt(c, x) + Cnt(ys, x) == Cnt(xs, x) + Cnt(zs, x))
    && d + Merge(less, c, ys) == Merge(less, xs, zs) && Sorted(less, ys)
  }

  /** Two lists share no hook, and none of their nodes is the null pointer. */
  ghost predicate TwoLists(a: nat, xs: seq<nat>, b: nat, ys: seq<nat>, nil: nat) {
    Apart(a, [], xs, b, [], ys) && !Has(xs, nil) && !Has(ys, nil) && a != nil && b != nil
  }

  lemma MergingApart(next: seq<nat>, a: nat, b: nat, less: (nat, nat) -> bool, xs: seq<nat>, zs: seq<nat>,
                     d: seq<nat>, c: seq<nat>, ys: seq<nat>, p: seq<nat>, r: seq<nat>)
    requires Merging(next, a, b, less, xs, zs, d, c, ys) && TwoLists(a, xs, b, zs, |next|) && ys == p + r
    ensures Apart(a, d, c, b, p, r) && !Has(c, |next|) && !Has(ys, |next|) && !Has(p, |next|)
    ensures First(r, |next|) != b && !Has(p, First(r, |next|))
  {
    forall x: nat ensures ApartAt(a, d, c, b, p, r, x) {
      CntAppend(p, r, x);
      assert ApartAt(a, [], xs, b, [], zs, x);
      assert Cnt(d, x) + Cnt(c, x) + Cnt(ys, x) == Cnt(xs, x) + Cnt(zs, x);
    }
    CntAppend(p, r, |next|);
    assert Cnt(d, |next|) + Cnt(c, |next|) + Cnt(ys, |next|) == Cnt(xs, |next|) + Cnt(zs, |next|);
    if r != [] {
      AtHas(r, 0);
      assert ApartAt(a, d, c, b, p, r, r[0]);
    }
  }

  /** One run spliced in. */
  lemma RunSpliced(next: seq<nat>, a: nat, b: nat, less: (nat, nat) -> bool, xs: seq<nat>, zs: seq<nat>,
                   d: seq<nat>, c: seq<nat>, p: seq<nat>, r: seq<nat>)
    requires Merging(next, a, b, less, xs, zs, d, c, p + r) && TwoLists(a, xs, b, zs, |next|) && p != []
    requires c == [] ==> r == []
    requires c != [] ==> forall j :: 0 <= j < |p| ==> less(p[j], c[0])
    ensures Last(a, d) < |next| && b < |next| && Last(b, p) < |next|
    ensures Merging(Spliced(next, Last(a, d), b, p, First(r, |next|)), a, b, less, xs, zs, d, p + c, r)
  {
    MergingApart(next, a, b, less, xs, zs, d, c, p + r, p, r);
    SpliceMoves(next, a, d, c, b, p, r, |next|);
    forall x: nat ensures Cnt(d, x) + Cnt(p + c, x) + Cnt(r, x) == Cnt(xs, x) + Cnt(zs, x) {
      CntAppend(p, c, x);
      CntAppend(p, r, x);
      assert Cnt(d, x) + Cnt(c, x) + Cnt(p + r, x) == Cnt(xs, x) + Cnt(zs, x);
    }
    if r != [] {
      forall j | 0 <= j < |p| ensures !less(r[0], p[j]) {
        assert (p + r)[|p|] == r[0] && (p + r)[j] == p[j];
      }
    }
    if c != [] {
      MergeRun(less, c, p, r);
      MergePast(less, c, p, r);
    } else {
      assert p + [] == p && p + r == p;
    }
    forall i, j | 0 <= i < j < |r| ensures !less(r[j], r[i]) {
      assert (p + r)[|p| + i] == r[i] && (p + r)[|p| + j] == r[j];
    }
  }

  /** The links that a merge of two lists may change. */
  ghost predicate Untouched(next: seq<nat>, next': seq<nat>, a: nat, xs: seq<nat>, b: nat, ys: seq<nat>) {
    && |next'| == |next|
    && forall x: nat :: x < |next| && x != a && x != b && !Has(xs, x) && !Has(ys, x) ==> next'[x] == next[x]
  }

  lemma SpliceUntouched(next0: seq<nat>, next: seq<nat>, a: nat, b: nat, less: (nat, nat) -> bool, xs: seq<nat>,
                        zs: seq<nat>, d: seq<nat>, c: seq<nat>, p: seq<nat>, r: seq<nat>)
    requires Untouched(next0, next, a, xs, b, zs) && Merging(next, a, b, less, xs, zs, d, c, p + r) && p != []
    requires Last(a, d) < |next| && b < |next| && Last(b, p) < |next|
    ensures Untouched(next0, Spliced(next, Last(a, d), b, p, First(r, |next|)), a, xs, b, zs)
  {
    LastIn(b, p);
    if d != [] { LastIn(a, d); }
    forall x: nat ensures Has(d, x) || Has(p, x) ==> Has(xs, x) || Has(zs, x) {
      CntAppend(p, r, x);
      assert Cnt(d, x) + Cnt(c, x) + Cnt(p + r, x) == Cnt(xs, x) + Cnt(zs, x);
    }
  }

  /**
   merge: the receiver a gets the stable merge of the two lists, the other is left empty, and no other link
   changes.  The other list is sorted; the receiver need not be.
   */
  method MergeInto(next: array<nat>, a: nat, b: nat, less: (nat, nat) -> bool, ghost xs: seq<nat>, ghost zs: seq<nat>)
    requires Seg(next[..], a, xs, next.Length) && Seg(next[..], b, zs, next.Length)
    requires TwoLists(a, xs, b, zs, next.Length) && Sorted(less, zs)
    modifies next
    ensures Seg(next[..], a, Merge(less, xs, zs), next.Length) && Seg(next[..], b, [], next.Length)
    ensures Untouched(old(next[..]), next[..], a, xs, b, zs)
  {
    ghost var d, c, ys: seq<nat> := [], xs, zs;
    assert d + c == xs && d + Merge(less, xs, zs) == Merge(less, xs, zs);
    var bb := a;
    while next[b] != next.Length
      invariant bb == Last(a, d) && Merging(next[..], a, b, less, xs, zs, d, c, ys)
      invariant Untouched(old(next[..]), next[..], a, xs, b, zs)
      decreases |ys|
    {
      bb, d, c, ys := MergeStep(next, bb, a, b, less, xs, zs, d, c, ys);
    }
    Finished(next[..], a, b, less, xs, zs, d, c, ys);
  }

  /** The other list is empty when its head's link is null. */
  lemma Finished(next: seq<nat>, a: nat, b: nat, less: (nat, nat) -> bool, xs: seq<nat>, zs: seq<nat>,
                 d: seq<nat>, c: seq<nat>, ys: seq<nat>)
    requires Merging(next, a, b, less, xs, zs, d, c, ys) && TwoLists(a, xs, b, zs, |next|) && next[b] == |next|
    ensures ys == [] && Seg(next, a, Merge(less, xs, zs), |next|)
  {
    MergingApart(next, a, b, less, xs, zs, d, c, ys, ys, []);
    HasAt(ys, |next|, 0);
    assert ys + [] == ys;
  }

  /** One turn of the loop: pass over what goes first, then take a run, or all that is left. */
  method MergeStep(next: array<nat>, at: nat, a: nat, b: nat, less: (nat, nat) -> bool, ghost xs: seq<nat>,
                   ghost zs: seq<nat>, ghost d0: seq<nat>, ghost c0: seq<nat>, ghost ys: seq<nat>)
    returns (bb: nat, ghost d: seq<nat>, ghost c: seq<nat>, ghost r: seq<nat>)
    requires at == Last(a, d0) && Merging(next[..], a, b, less, xs, zs, d0, c0, ys)
    requires TwoLists(a, xs, b, zs, next.Length) && next[b] != next.Length
    modifies next
    ensures bb == Last(a, d) && Merging(next[..], a, b, less, xs, zs, d, c, r) && |r| < |ys|
    ensures forall n0 :: Untouched(n0, old(next[..]), a, xs, b, zs) ==> Untouched(n0, next[..], a, xs, b, zs)
  {
    var y, last := next[b], next.Length;
    assert ys != [];
    MergingApart(next[..], a, b, less, xs, zs, d0, c0, ys, [], ys);
    SegSplit(next[..], a, d0, c0, next.Length);
    var bbNext;
    ghost var rest, p;
    bb, bbNext, d, rest := Advance(next, at, y, less, a, d0, c0, ys);
    Advanced(next[..], a, b, less, xs, zs, d0, c0, d, rest, ys);
    if bbNext == next.Length {
      p, r := ys, [];
      assert p + r == ys;
    } else {
      last, p, r := TakeRun(next, b, bbNext, less, ys);
    }
    MergingApart(next[..], a, b, less, xs, zs, d, rest, ys, p, r);
    SegSplit(next[..], b, p, r, next.Length);
    ghost var before := next[..];
    SpliceAfter(next, bb, b, last, p);
    RunSpliced(before, a, b, less, xs, zs, d, rest, p, r);
    c := p + rest;
    forall n0 | Untouched(n0, before, a, xs, b, zs) ensures Untouched(n0, next[..], a, xs, b, zs) {
      SpliceUntouched(n0, before, a, b, less, xs, zs, d, rest, p, r);
    }
  }

  lemma Advanced(next: seq<nat>, a: nat, b: nat, less: (nat, nat) -> bool, xs: seq<nat>, zs: seq<nat>,
                 d0: seq<nat>, c0: seq<nat>, d: seq<nat>, c: seq<nat>, ys: seq<nat>)
    requires Merging(next, a, b, less, xs, zs, d0, c0, ys)
    requires d + c == d0 + c0 && d + Merge(less, c, ys) == d0 + Merge(less, c0, ys)
    ensures Merging(next, a, b, less, xs, zs, d, c, ys)
  {
    forall x: nat ensures Cnt(d, x) + Cnt(c, x) == Cnt(d0, x) + Cnt(c0, x) {
      CntAppend(d, c, x);
      CntAppend(d0, c0, x);
    }
  }
}
