/**
 Singly linked lists threaded through one table of m_next links.  A hook is an index into the table, the table's
 length is the null pointer, and a list is the hook of its head and the nodes that follow it.
 */
module NodeLists {
  /** How often a hook occurs. */
  function Cnt(xs: seq<nat>, x: nat): nat {
    if xs == [] then 0 else (if xs[0] == x then 1 else 0) + Cnt(xs[1..], x)
  }

  lemma {:induction false} CntAppend(xs: seq<nat>, ys: seq<nat>, x: nat)
    ensures Cnt(xs + ys, x) == Cnt(xs, x) + Cnt(ys, x)
  {
    if xs == [] {
      assert xs + ys == ys;
    } else {
      CntAppend(xs[1..], ys, x);
      assert (xs + ys)[1..] == xs[1..] + ys;
    }
  }

  function Last(from: nat, ns: seq<nat>): nat {
    if ns == [] then from else ns[|ns| - 1]
  }

  function First(ns: seq<nat>, to: nat): nat {
    if ns == [] then to else ns[0]
  }

  /** Following the links from a hook one meets the nodes ns, and then `to`. */
  ghost predicate Seg(next: seq<nat>, from: nat, ns: seq<nat>, to: nat)
    decreases |ns|
  {
    && from < |next|
    && if ns == [] then next[from] == to else next[from] == ns[0] && Seg(next, ns[0], ns[1..], to)
  }

  lemma {:induction false} SegSplit(next: seq<nat>, from: nat, xs: seq<nat>, ys: seq<nat>, to: nat)
    ensures Seg(next, from, xs + ys, to) <==> Seg(next, from, xs, First(ys, to)) && Seg(next, Last(from, xs), ys, to)
    decreases |xs|
  {
    if xs == [] {
      assert xs + ys == ys;
    } else {
      assert (xs + ys)[1..] == xs[1..] + ys;
      SegSplit(next, xs[0], xs[1..], ys, to);
    }
  }

  lemma {:induction false} SegLast(next: seq<nat>, from: nat, ns: seq<nat>, to: nat)
    requires Seg(next, from, ns, to)
    ensures Last(from, ns) < |next| && next[Last(from, ns)] == to
    decreases |ns|
  {
    if ns != [] {
      SegLast(next, ns[0], ns[1..], to);
    }
  }

  /** ns has the hook x. */
  predicate Has(ns: seq<nat>, x: nat) {
    Cnt(ns, x) > 0
  }

  lemma CntCons(ns: seq<nat>, x: nat)
    requires ns != []
    ensures Cnt(ns, x) == Cnt(ns[1..], x) + if ns[0] == x then 1 else 0
  {}

  lemma {:induction false} SegFrame(next: seq<nat>, next': seq<nat>, from: nat, ns: seq<nat>, to: nat)
    requires Seg(next, from, ns, to) && |next'| == |next|
    requires from < |next| && next'[from] == next[from]
    requires forall x: nat :: Has(ns, x) && x < |next| ==> next'[x] == next[x]
    ensures Seg(next', from, ns, to)
    decreases |ns|
  {
    if ns != [] {
      assert Has(ns, ns[0]);
      forall x: nat | Has(ns[1..], x) && x < |next| ensures next'[x] == next[x] {
        CntCons(ns, x);
        assert Has(ns, x);
      }
      SegFrame(next, next', ns[0], ns[1..], to);
    }
  }

  lemma {:induction false} LastIn(from: nat, ns: seq<nat>)
    requires ns != []
    ensures Has(ns, Last(from, ns))
    decreases |ns|
  {
    if |ns| > 1 {
      LastIn(ns[0], ns[1..]);
      assert Last(ns[0], ns[1..]) == Last(from, ns);
    }
  }

  /** Only the last link of a segment is redirected. */
  lemma {:induction false} SegRedirect(next: seq<nat>, next': seq<nat>, from: nat, ns: seq<nat>, to: nat, to': nat)
    requires Seg(next, from, ns, to) && |next'| == |next| && Last(from, ns) < |next| && next'[Last(from, ns)] == to'
    requires forall x: nat :: Has([from] + ns, x) && x != Last(from, ns) && x < |next| ==> next'[x] == next[x]
    requires forall x: nat :: Cnt([from] + ns, x) <= 1
    ensures Seg(next', from, ns, to')
    decreases |ns|
  {
    if ns != [] {
      var all := [from] + ns;
      assert all[1..] == ns && [ns[0]] + ns[1..] == ns;
      LastIn(from, ns);
      CntCons(all, Last(from, ns));
      CntCons(all, from);
      assert Cnt(all, Last(from, ns)) <= 1;
      assert from != Last(from, ns) && Has(all, from);
      forall x: nat ensures Cnt(ns, x) <= 1 && (Has(ns, x) ==> Has(all, x)) {
        CntCons(all, x);
        assert Cnt(all, x) <= 1;
      }
      SegRedirect(next, next', ns[0], ns[1..], to, to');
    }
  }

  // -------------------------------------------------------------- splicing

  /** The effect of splice_after on the links, for the nodes p between `first` and `last`. */
  function Spliced(next: seq<nat>, pos: nat, first: nat, p: seq<nat>, last: nat): (r: seq<nat>)
    requires pos < |next| && first < |next| && Last(first, p) < |next|
    ensures |r| == |next|
  {
    if p == [] then next
    else next[first := last][Last(first, p) := next[first := last][pos]][pos := p[0]]
  }

  /** Two lists cut in two each, no hook occurring twice. */
  ghost predicate Apart(a: nat, d: seq<nat>, c: seq<nat>, b: nat, p: seq<nat>, r: seq<nat>) {
    forall x: nat :: ApartAt(a, d, c, b, p, r, x)
  }

  ghost predicate ApartAt(a: nat, d: seq<nat>, c: seq<nat>, b: nat, p: seq<nat>, r: seq<nat>, x: nat) {
    (if x == a then 1 else 0) + Cnt(d, x) + Cnt(c, x) + (if x == b then 1 else 0) + Cnt(p, x) + Cnt(r, x) <= 1
  }

  lemma CntHead(a: nat, d: seq<nat>, x: nat)
    ensures Cnt([a] + d, x) == Cnt(d, x) + if x == a then 1 else 0
  {
    assert ([a] + d)[1..] == d;
  }

  /** The last hook of each part is its own. */
  lemma LastApart(a: nat, d: seq<nat>, c: seq<nat>, b: nat, p: seq<nat>, r: seq<nat>)
    requires Apart(a, d, c, b, p, r) && p != []
    ensures var pos, e := Last(a, d), Last(b, p);
      pos != e && pos != b && e != b && !Has(c, pos) && !Has(r, pos) && !Has(p, pos)
      && !Has(c, e) && !Has(r, e) && !Has(d, e) && e != a && Has(p, e)
      && !Has(c, b) && !Has(r, b) && !Has(d, b) && !Has(p, b) && a != b
  {
    var pos, e := Last(a, d), Last(b, p);
    LastIn(b, p);
    if d != [] { LastIn(a, d); }
    assert ApartAt(a, d, c, b, p, r, pos) && ApartAt(a, d, c, b, p, r, e) && ApartAt(a, d, c, b, p, r, b);
  }

  /** The nodes p leave one list and follow d in the other; nothing is lost or duplicated. */
  lemma SpliceMoves(next: seq<nat>, a: nat, d: seq<nat>, c: seq<nat>, b: nat, p: seq<nat>, r: seq<nat>, nil: nat)
    requires Seg(next, a, d + c, nil) && Seg(next, b, p + r, nil) && Apart(a, d, c, b, p, r) && p != []
    ensures Last(a, d) < |next| && b < |next| && Last(b, p) < |next|
    ensures var next' := Spliced(next, Last(a, d), b, p, First(r, nil));
      && Seg(next', a, d + (p + c), nil) && Seg(next', b, r, nil)
  {
    var pos, e := Last(a, d), Last(b, p);
    SegSplit(next, a, d, c, nil);
    SegSplit(next, b, p, r, nil);
    SegLast(next, a, d, First(c, nil));
    SegLast(next, b, p, First(r, nil));
    LastApart(a, d, c, b, p, r);
    var next' := Spliced(next, pos, b, p, First(r, nil));
    assert next'[pos] == p[0] && next'[e] == next[pos] == First(c, nil) && next'[b] == First(r, nil);
    forall x: nat
      ensures Cnt([a] + d, x) <= 1
      ensures Has([a] + d, x) && x != pos && x < |next| ==> next'[x] == next[x]
    {
      CntHead(a, d, x);
      assert ApartAt(a, d, c, b, p, r, x) && ApartAt(a, d, c, b, p, r, e);
    }
    SegRedirect(next, next', a, d, First(c, nil), p[0]);
    SplicePart(next, next', a, d, c, b, p, r, First(c, nil));
    SpliceRest(next, next', a, d, c, b, p, r, e, c, nil);
    SpliceRest(next, next', a, d, c, b, p, r, b, r, nil);
    SegSplit(next', pos, p, c, nil);
    SegSplit(next', a, d, p + c, nil);
  }

  /** The moved nodes themselves. */
  lemma SplicePart(next: seq<nat>, next': seq<nat>, a: nat, d: seq<nat>, c: seq<nat>, b: nat, p: seq<nat>,
                   r: seq<nat>, to: nat)
    requires Apart(a, d, c, b, p, r) && p != [] && |next'| == |next| && Last(a, d) < |next|
    requires Last(b, p) < |next| && Seg(next, b, p, next[Last(b, p)])
    requires next'[Last(a, d)] == p[0] && next'[Last(b, p)] == to
    requires forall x: nat :: x < |next| && x != b && x != Last(b, p) && x != Last(a, d) ==> next'[x] == next[x]
    ensures Seg(next', Last(a, d), p, to)
  {
    LastApart(a, d, c, b, p, r);
    assert [p[0]] + p[1..] == p;
    forall x: nat
      ensures Cnt(p, x) <= 1
      ensures Has(p, x) && x != Last(b, p) && x < |next| ==> next'[x] == next[x]
    {
      assert ApartAt(a, d, c, b, p, r, x);
    }
    SegRedirect(next, next', p[0], p[1..], next[Last(b, p)], to);
  }

  /** A part that stays behind another hook. */
  lemma SpliceRest(next: seq<nat>, next': seq<nat>, a: nat, d: seq<nat>, c: seq<nat>, b: nat, p: seq<nat>,
                   r: seq<nat>, from: nat, q: seq<nat>, nil: nat)
    requires Apart(a, d, c, b, p, r) && p != [] && |next'| == |next| && (q == c || q == r) && from < |next|
    requires forall x: nat :: x < |next| && x != b && x != Last(b, p) && x != Last(a, d) ==> next'[x] == next[x]
    requires Seg(next, if q == c then Last(a, d) else Last(b, p), q, nil) && next'[from] == First(q, nil)
    ensures Seg(next', from, q, nil)
  {
    LastApart(a, d, c, b, p, r);
    if q != [] {
      assert Has(q, q[0]);
      forall x: nat | Has(q[1..], x) && x < |next| ensures next'[x] == next[x] {
        CntCons(q, x);
        assert Has(q, x);
      }
      SegFrame(next, next', q[0], q[1..], nil);
    }
  }
}
