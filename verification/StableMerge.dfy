/**
 Stable merging and sorting of sequences by a strict weak order: what `merge` and `sort` of
 intrusive_forward_list compute.
 */
module StableMerge {
  /** What a comparison has to be: a strict weak order. */
  ghost predicate StrictWeakOrder<T(!new)>(less: (T, T) -> bool) {
    && (forall a, b {:trigger less(a, b)} :: less(a, b) ==> !less(b, a))
    && (forall a, b, c {:trigger less(a, b), less(b, c)} :: !less(a, b) && !less(b, c) ==> !less(a, c))
  }

  ghost predicate Sorted<T>(less: (T, T) -> bool, xs: seq<T>) {
    forall i, j :: 0 <= i < j < |xs| ==> !less(xs[j], xs[i])
  }

  /** The receiver's element goes first unless the other's is less. */
  function Merge<T>(less: (T, T) -> bool, xs: seq<T>, ys: seq<T>): seq<T>
    decreases |xs| + |ys|
  {
    if xs == [] then ys else if ys == [] then xs
    else if less(ys[0], xs[0]) then [ys[0]] + Merge(less, xs, ys[1..])
    else [xs[0]] + Merge(less, xs[1..], ys)
  }

  /** Elements inserted one by one, each behind those it is not less than. */
  function SortOf<T>(less: (T, T) -> bool, xs: seq<T>): seq<T> {
    if xs == [] then [] else Merge(less, SortOf(less, xs[..|xs| - 1]), [xs[|xs| - 1]])
  }

  lemma MergeHead<T>(less: (T, T) -> bool, xs: seq<T>, ys: seq<T>)
    requires xs != [] && ys != []
    ensures less(ys[0], xs[0]) ==>
      Merge(less, xs, ys)[0] == ys[0] && Merge(less, xs, ys)[1..] == Merge(less, xs, ys[1..])
    ensures !less(ys[0], xs[0]) ==>
      Merge(less, xs, ys)[0] == xs[0] && Merge(less, xs, ys)[1..] == Merge(less, xs[1..], ys)
  {}

  /** Merging is associative: that runs of any shape may be merged in any grouping rests on this. */
  lemma {:induction false} MergeAssociative<T(!new)>(less: (T, T) -> bool, xs: seq<T>, ys: seq<T>, zs: seq<T>)
    requires StrictWeakOrder(less)
    ensures Merge(less, Merge(less, xs, ys), zs) == Merge(less, xs, Merge(less, ys, zs))
    decreases |xs| + |ys| + |zs|
  {
    if xs != [] && ys != [] && zs != [] {
      MergeHead(less, xs, ys);
      MergeHead(less, ys, zs);
      MergeHead(less, Merge(less, xs, ys), zs);
      MergeHead(less, xs, Merge(less, ys, zs));
      var x, y, z := xs[0], ys[0], zs[0];
      if less(z, y) && less(z, x) {
        MergeAssociative(less, xs, ys, zs[1..]);
      } else if less(y, x) {
        MergeAssociative(less, xs, ys[1..], zs);
      } else {
        MergeAssociative(less, xs[1..], ys, zs);
      }
    }
  }

  /** Sorting in two halves and merging them. */
  lemma {:induction false} SortAppend<T(!new)>(less: (T, T) -> bool, xs: seq<T>, ys: seq<T>)
    requires StrictWeakOrder(less)
    ensures SortOf(less, xs + ys) == Merge(less, SortOf(less, xs), SortOf(less, ys))
  {
    if ys == [] {
      assert xs + ys == xs;
    } else {
      var m := |ys| - 1;
      assert (xs + ys)[..|xs| + m] == xs + ys[..m];
      SortAppend(less, xs, ys[..m]);
      MergeAssociative(less, SortOf(less, xs), SortOf(less, ys[..m]), [ys[m]]);
    }
  }

  // -------------------------------------------------------------- the result is the stable sorted permutation

  lemma Uncons<T>(xs: seq<T>)
    requires xs != []
    ensures multiset(xs) == multiset{xs[0]} + multiset(xs[1..])
  {
    assert xs == [xs[0]] + xs[1..];
  }

  lemma Exchange<T>(x: multiset<T>, a: multiset<T>, b: multiset<T>)
    ensures x + (a + b) == a + (x + b) == (x + a) + b
  {}

  lemma {:induction false} MergeElements<T>(less: (T, T) -> bool, xs: seq<T>, ys: seq<T>)
    ensures multiset(Merge(less, xs, ys)) == multiset(xs) + multiset(ys)
    decreases |xs| + |ys|
  {
    if xs != [] && ys != [] {
      MergeHead(less, xs, ys);
      Uncons(Merge(less, xs, ys));
      if less(ys[0], xs[0]) {
        MergeElements(less, xs, ys[1..]);
        Uncons(ys);
        Exchange(multiset{ys[0]}, multiset(xs), multiset(ys[1..]));
      } else {
        MergeElements(less, xs[1..], ys);
        Uncons(xs);
        Exchange(multiset{xs[0]}, multiset(xs[1..]), multiset(ys));
      }
    }
  }

  /** Every element of a merge comes from one of the two. */
  lemma {:induction false} MergeFrom<T>(less: (T, T) -> bool, xs: seq<T>, ys: seq<T>, v: T)
    requires forall i :: 0 <= i < |xs| ==> !less(xs[i], v)
    requires forall i :: 0 <= i < |ys| ==> !less(ys[i], v)
    ensures forall i :: 0 <= i < |Merge(less, xs, ys)| ==> !less(Merge(less, xs, ys)[i], v)
    decreases |xs| + |ys|
  {
    if xs != [] && ys != [] {
      if less(ys[0], xs[0]) {
        MergeFrom(less, xs, ys[1..], v);
      } else {
        MergeFrom(less, xs[1..], ys, v);
      }
    }
  }

  lemma SortedCons<T>(less: (T, T) -> bool, v: T, xs: seq<T>)
    requires Sorted(less, xs) && forall i :: 0 <= i < |xs| ==> !less(xs[i], v)
    ensures Sorted(less, [v] + xs)
  {}

  lemma {:induction false} MergeSorted<T(!new)>(less: (T, T) -> bool, xs: seq<T>, ys: seq<T>)
    requires StrictWeakOrder(less) && Sorted(less, xs) && Sorted(less, ys)
    ensures Sorted(less, Merge(less, xs, ys))
    decreases |xs| + |ys|
  {
    if xs != [] && ys != [] {
      var x, y := xs[0], ys[0];
      if less(y, x) {
        MergeSorted(less, xs, ys[1..]);
        forall i | 0 <= i < |xs| ensures !less(xs[i], y) {
          assert !less(xs[i], x) || i == 0;
        }
        MergeFrom(less, xs, ys[1..], y);
        SortedCons(less, y, Merge(less, xs, ys[1..]));
      } else {
        MergeSorted(less, xs[1..], ys);
        forall i | 0 <= i < |ys| ensures !less(ys[i], x) {
          assert !less(ys[i], y) || i == 0;
        }
        MergeFrom(less, xs[1..], ys, x);
        SortedCons(less, x, Merge(less, xs[1..], ys));
      }
    }
  }

  /** The elements level with v, in order. */
  function Level<T>(less: (T, T) -> bool, xs: seq<T>, v: T): seq<T> {
    if xs == [] then []
    else if !less(xs[0], v) && !less(v, xs[0]) then [xs[0]] + Level(less, xs[1..], v)
    else Level(less, xs[1..], v)
  }

  lemma {:induction false} NoneLevel<T>(less: (T, T) -> bool, xs: seq<T>, v: T)
    requires forall i :: 0 <= i < |xs| ==> less(v, xs[i])
    ensures Level(less, xs, v) == []
  {
    if xs != [] {
      NoneLevel(less, xs[1..], v);
    }
  }

  lemma Above<T(!new)>(less: (T, T) -> bool, y: T, x0: T, x: T, v: T)
    requires StrictWeakOrder(less) && less(y, x0) && !less(x, x0) && !less(y, v)
    ensures less(v, x)
  {
    assert less(y, x) || less(x, x0);
    assert less(y, v) || less(v, x);
  }

  /** Elements level with one that is less than the first of a sorted sequence are not in the sequence. */
  lemma NoneBelow<T(!new)>(less: (T, T) -> bool, xs: seq<T>, y: T, v: T)
    requires StrictWeakOrder(less) && Sorted(less, xs) && xs != [] && less(y, xs[0]) && !less(y, v)
    ensures Level(less, xs, v) == []
  {
    forall i | 0 <= i < |xs| ensures less(v, xs[i]) {
      Above(less, y, xs[0], xs[i], v);
    }
    NoneLevel(less, xs, v);
  }

  lemma AppendAssociative<T>(x: T, a: seq<T>, b: seq<T>)
    ensures [x] + (a + b) == ([x] + a) + b
  {}

  /** The level elements of a sequence that starts with x. */
  function LevelCons<T>(less: (T, T) -> bool, x: T, rest: seq<T>, v: T): seq<T> {
    if !less(x, v) && !less(v, x) then [x] + rest else rest
  }

  lemma LevelHead<T>(less: (T, T) -> bool, xs: seq<T>, v: T)
    requires xs != []
    ensures Level(less, xs, v) == LevelCons(less, xs[0], Level(less, xs[1..], v), v)
  {}

  /** Among elements that are level, the receiver's stay in front. */
  lemma {:induction false} MergeLevel<T(!new)>(less: (T, T) -> bool, xs: seq<T>, ys: seq<T>, v: T)
    requires StrictWeakOrder(less) && Sorted(less, xs)
    ensures Level(less, Merge(less, xs, ys), v) == Level(less, xs, v) + Level(less, ys, v)
    decreases |xs| + |ys|
  {
    if xs == [] {
    } else if ys == [] {
      assert Level(less, xs, v) + [] == Level(less, xs, v);
    } else {
      MergeHead(less, xs, ys);
      LevelHead(less, Merge(less, xs, ys), v);
      if less(ys[0], xs[0]) {
        MergeLevel(less, xs, ys[1..], v);
        LevelHead(less, ys, v);
        if !less(ys[0], v) && !less(v, ys[0]) {
          NoneBelow(less, xs, ys[0], v);
          NoneFirst(Level(less, ys[1..], v));
          NoneFirst(Level(less, ys, v));
        }
      } else {
        MergeLevel(less, xs[1..], ys, v);
        LevelHead(less, xs, v);
        AppendAssociative(xs[0], Level(less, xs[1..], v), Level(less, ys, v));
      }
    }
  }

  lemma NoneFirst<T>(a: seq<T>)
    ensures [] + a == a
  {}

  lemma {:induction false} LevelSnoc<T>(less: (T, T) -> bool, xs: seq<T>, y: T, v: T)
    ensures Level(less, xs + [y], v) == Level(less, xs, v) + Level(less, [y], v)
  {
    if xs == [] {
      assert xs + [y] == [y];
    } else {
      LevelSnoc(less, xs[1..], y, v);
      assert (xs + [y])[1..] == xs[1..] + [y];
    }
  }

  /** SortOf is a sorted permutation, and elements that are level keep their order. */
  lemma {:induction false} SortIsStable<T(!new)>(less: (T, T) -> bool, xs: seq<T>)
    requires StrictWeakOrder(less)
    ensures Sorted(less, SortOf(less, xs)) && multiset(SortOf(less, xs)) == multiset(xs)
    ensures forall v :: Level(less, SortOf(less, xs), v) == Level(less, xs, v)
  {
    if xs != [] {
      var m := |xs| - 1;
      var ys, x := SortOf(less, xs[..m]), [xs[m]];
      SortIsStable(less, xs[..m]);
      MergeSorted(less, ys, x);
      MergeElements(less, ys, x);
      assert xs == xs[..m] + x;
      forall v ensures Level(less, SortOf(less, xs), v) == Level(less, xs, v) {
        MergeLevel(less, ys, x, v);
        LevelSnoc(less, xs[..m], xs[m], v);
      }
    }
  }

  lemma {:induction false} MergeLength<T>(less: (T, T) -> bool, xs: seq<T>, ys: seq<T>)
    ensures |Merge(less, xs, ys)| == |xs| + |ys|
    decreases |xs| + |ys|
  {
    if xs != [] && ys != [] {
      if less(ys[0], xs[0]) {
        MergeLength(less, xs, ys[1..]);
      } else {
        MergeLength(less, xs[1..], ys);
      }
    }
  }

  lemma {:induction false} SortLength<T>(less: (T, T) -> bool, xs: seq<T>)
    ensures |SortOf(less, xs)| == |xs|
  {
    if xs != [] {
      SortLength(less, xs[..|xs| - 1]);
      MergeLength(less, SortOf(less, xs[..|xs| - 1]), [xs[|xs| - 1]]);
    }
  }
}
