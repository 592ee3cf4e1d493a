/**
 Sorting by bytes from the lowest: what one scatter pass does to a sequence, and why the passes together sort
 stably.
 */
module RadixPasses {
  import opened Arithmetic
  import opened Bits

  /** `( key >> 8 * i ) & 0xFF`. */
  function Byte(key: nat, i: nat): byte {
    if i == 0 then key % 256 else Byte(key / 256, i - 1)
  }

  type byte = b: nat | b < 256

  /** The byte of an element that a pass sorts by. */
  function ByteOf<T>(key: T -> nat, i: nat): T -> byte {
    x => Byte(key(x), i)
  }

  /** The elements with byte b, in order. */
  function Bucket<T>(xs: seq<T>, d: T -> byte, b: nat): seq<T> {
    if xs == [] then []
    else
      var x := xs[|xs| - 1];
      var ys := Bucket(xs[..|xs| - 1], d, b);
      if d(x) == b then ys + [x] else ys
  }

  /** The first n buckets, one after the other. */
  function Buckets<T>(xs: seq<T>, d: T -> byte, n: nat): seq<T> {
    if n == 0 then [] else Buckets(xs, d, n - 1) + Bucket(xs, d, n - 1)
  }

  /** One scatter pass by byte i. */
  function Pass<T>(xs: seq<T>, d: T -> byte): seq<T> {
    Buckets(xs, d, 256)
  }

  /** The first n passes, lowest byte first. */
  function Passes<T>(xs: seq<T>, key: T -> nat, n: nat): seq<T> {
    if n == 0 then xs else Pass(Passes(xs, key, n - 1), ByteOf(key, n - 1))
  }

  // -------------------------------------------------------------- order by the low bytes

  /** u is before or level with v when only the low n bytes are looked at. */
  predicate LowLe(u: nat, v: nat, n: nat) {
    n == 0 || Byte(u, n - 1) < Byte(v, n - 1) || (Byte(u, n - 1) == Byte(v, n - 1) && LowLe(u, v, n - 1))
  }

  predicate LowSame(u: nat, v: nat, n: nat) {
    n == 0 || (Byte(u, n - 1) == Byte(v, n - 1) && LowSame(u, v, n - 1))
  }

  ghost predicate SortedLow<T>(xs: seq<T>, key: T -> nat, n: nat) {
    forall i, j :: 0 <= i < j < |xs| ==> LowLe(key(xs[i]), key(xs[j]), n)
  }

  /** The elements whose low n bytes are those of v, in order. */
  function Class<T>(xs: seq<T>, key: T -> nat, n: nat, v: nat): seq<T> {
    if xs == [] then []
    else
      var x := xs[|xs| - 1];
      var ys := Class(xs[..|xs| - 1], key, n, v);
      if LowSame(key(x), v, n) then ys + [x] else ys
  }

  /** Low n bytes as a number. */
  function Low(u: nat, n: nat): nat {
    if n == 0 then 0 else Byte(u, n - 1) * Pow2(8 * (n - 1)) + Low(u, n - 1)
  }

  lemma {:induction false} LowBound(u: nat, n: nat)
    ensures Low(u, n) < Pow2(8 * n)
  {
    if n > 0 {
      var p := Pow2(8 * (n - 1));
      LowBound(u, n - 1);
      Eight(n - 1);
      MulLe(Byte(u, n - 1), 255, p);
    } else {
      assert Pow2(0) == 1;
    }
  }

  lemma Eight(n: nat)
    ensures Pow2(8 * (n + 1)) == 256 * Pow2(8 * n)
  {
    Pow2Byte(8 * n);
  }

  /** Shifting a byte out. */
  lemma {:induction false} LowShift(u: nat, n: nat)
    ensures Low(u, n + 1) == 256 * Low(u / 256, n) + u % 256
  {
    if n == 0 {
      assert Low(u, 1) == Byte(u, 0) * Pow2(0) + Low(u, 0);
    } else {
      LowShift(u, n - 1);
      Eight(n - 1);
      MulAssoc(Byte(u, n), 256, Pow2(8 * (n - 1)));
    }
  }

  /** A number that fits in n bytes is its low n bytes. */
  lemma {:induction false} LowIs(u: nat, n: nat)
    requires u < Pow2(8 * n)
    ensures Low(u, n) == u
  {
    if n == 0 {
      assert Pow2(0) == 1;
    } else {
      Eight(n - 1);
      LowIs(u / 256, n - 1);
      LowShift(u, n - 1);
    }
  }

  lemma {:induction false} LowOrder(u: nat, v: nat, n: nat)
    ensures LowLe(u, v, n) <==> Low(u, n) <= Low(v, n)
    ensures LowSame(u, v, n) <==> Low(u, n) == Low(v, n)
  {
    if n > 0 {
      var p, a, b := Pow2(8 * (n - 1)), Byte(u, n - 1), Byte(v, n - 1);
      LowOrder(u, v, n - 1);
      LowBound(u, n - 1);
      LowBound(v, n - 1);
      if a < b {
        MulLe(a + 1, b, p);
        Distribute(a, 1, p);
      } else if b < a {
        MulLe(b + 1, a, p);
        Distribute(b, 1, p);
      }
    }
  }

  // -------------------------------------------------------------- one pass refines the order by a byte

  lemma {:induction false} BucketMembers<T>(xs: seq<T>, d: T -> byte, b: nat)
    ensures forall j :: 0 <= j < |Bucket(xs, d, b)| ==> d(Bucket(xs, d, b)[j]) == b
  {
    if xs != [] {
      BucketMembers(xs[..|xs| - 1], d, b);
    }
  }

  /** Elements of a bucket come from the sequence, so a bound that holds of all holds of them. */
  lemma {:induction false} BucketLast<T>(xs: seq<T>, key: T -> nat, i: nat, b: nat, n: nat, v: nat)
    requires forall j :: 0 <= j < |xs| ==> LowLe(key(xs[j]), v, n)
    ensures forall j :: 0 <= j < |Bucket(xs, ByteOf(key, i), b)| ==> LowLe(key(Bucket(xs, ByteOf(key, i), b)[j]), v, n)
  {
    if xs != [] {
      BucketLast(xs[..|xs| - 1], key, i, b, n, v);
    }
  }

  lemma {:induction false} BucketSorted<T>(xs: seq<T>, key: T -> nat, i: nat, b: nat, n: nat)
    requires SortedLow(xs, key, n)
    ensures SortedLow(Bucket(xs, ByteOf(key, i), b), key, n)
  {
    if xs != [] {
      var ys, x := xs[..|xs| - 1], xs[|xs| - 1];
      BucketSorted(ys, key, i, b, n);
      forall j | 0 <= j < |ys| ensures LowLe(key(ys[j]), key(x), n) {
        assert ys[j] == xs[j];
      }
      BucketLast(ys, key, i, b, n, key(x));
    }
  }

  lemma {:induction false} BucketsSorted<T>(xs: seq<T>, key: T -> nat, i: nat, n: nat)
    requires SortedLow(xs, key, i)
    ensures SortedLow(Buckets(xs, ByteOf(key, i), n), key, i + 1)
    ensures forall j :: 0 <= j < |Buckets(xs, ByteOf(key, i), n)| ==>
      Byte(key(Buckets(xs, ByteOf(key, i), n)[j]), i) < n
  {
    if n > 0 {
      BucketsSorted(xs, key, i, n - 1);
      BucketMembers(xs, ByteOf(key, i), n - 1);
      BucketSorted(xs, key, i, n - 1, i);
    }
  }

  /** A pass by byte i sorts by i + 1 bytes what was sorted by i. */
  lemma PassSorts<T>(xs: seq<T>, key: T -> nat, i: nat)
    requires SortedLow(xs, key, i)
    ensures SortedLow(Pass(xs, ByteOf(key, i)), key, i + 1)
  {
    BucketsSorted(xs, key, i, 256);
  }

  // -------------------------------------------------------------- and keeps the order of equals

  lemma {:induction false} ClassAppend<T>(xs: seq<T>, ys: seq<T>, key: T -> nat, n: nat, v: nat)
    ensures Class(xs + ys, key, n, v) == Class(xs, key, n, v) + Class(ys, key, n, v)
  {
    if ys == [] {
      assert xs + ys == xs;
    } else {
      var m := |ys| - 1;
      ClassAppend(xs, ys[..m], key, n, v);
      assert (xs + ys)[..|xs| + m] == xs + ys[..m];
    }
  }

  /** All of a class is in the bucket of its byte, in order, and nothing of it in the others. */
  lemma {:induction false} ClassOfBucket<T>(xs: seq<T>, key: T -> nat, i: nat, b: nat, n: nat, v: nat)
    requires i < n
    ensures Class(Bucket(xs, ByteOf(key, i), b), key, n, v) == if b == Byte(v, i) then Class(xs, key, n, v) else []
  {
    if xs != [] {
      var ys, x := xs[..|xs| - 1], xs[|xs| - 1];
      ClassOfBucket(ys, key, i, b, n, v);
      ClassAppend(Bucket(ys, ByteOf(key, i), b), [x], key, n, v);
      assert [x][..0] == [];
      SameByte(key(x), v, i, n);
    }
  }

  lemma {:induction false} SameByte(u: nat, v: nat, i: nat, n: nat)
    requires i < n
    ensures LowSame(u, v, n) ==> Byte(u, i) == Byte(v, i)
  {
    if i < n - 1 {
      SameByte(u, v, i, n - 1);
    }
  }

  lemma {:induction false} ClassOfBuckets<T>(xs: seq<T>, key: T -> nat, i: nat, m: nat, n: nat, v: nat)
    requires i < n
    ensures Class(Buckets(xs, ByteOf(key, i), m), key, n, v) == if Byte(v, i) < m then Class(xs, key, n, v) else []
  {
    if m > 0 {
      ClassOfBuckets(xs, key, i, m - 1, n, v);
      OneMoreClass(xs, key, i, m, n, v);
    }
  }

  lemma OneMoreClass<T>(xs: seq<T>, key: T -> nat, i: nat, m: nat, n: nat, v: nat)
    requires i < n && m > 0
    requires Class(Buckets(xs, ByteOf(key, i), m - 1), key, n, v) ==
             if Byte(v, i) < m - 1 then Class(xs, key, n, v) else []
    ensures Class(Buckets(xs, ByteOf(key, i), m), key, n, v) == if Byte(v, i) < m then Class(xs, key, n, v) else []
  {
    var d := ByteOf(key, i);
    ClassAppend(Buckets(xs, d, m - 1), Bucket(xs, d, m - 1), key, n, v);
    ClassOfBucket(xs, key, i, m - 1, n, v);
  }

  lemma PassKeepsClass<T>(xs: seq<T>, key: T -> nat, i: nat, n: nat, v: nat)
    requires i < n
    ensures Class(Pass(xs, ByteOf(key, i)), key, n, v) == Class(xs, key, n, v)
  {
    ClassOfBuckets(xs, key, i, 256, n, v);
  }

  // -------------------------------------------------------------- all passes

  lemma {:induction false} PassesSort<T>(xs: seq<T>, key: T -> nat, n: nat)
    ensures SortedLow(Passes(xs, key, n), key, n)
  {
    if n > 0 {
      PassesSort(xs, key, n - 1);
      PassSorts(Passes(xs, key, n - 1), key, n - 1);
    }
  }

  lemma {:induction false} PassesKeepClass<T>(xs: seq<T>, key: T -> nat, m: nat, n: nat, v: nat)
    requires m <= n
    ensures Class(Passes(xs, key, m), key, n, v) == Class(xs, key, n, v)
  {
    if m > 0 {
      PassesKeepClass(xs, key, m - 1, n, v);
      PassKeepsClass(Passes(xs, key, m - 1), key, m - 1, n, v);
    }
  }

  // -------------------------------------------------------------- a pass moves elements and nothing else

  lemma {:induction false} BucketAppend<T>(xs: seq<T>, ys: seq<T>, d: T -> byte, b: nat)
    ensures Bucket(xs + ys, d, b) == Bucket(xs, d, b) + Bucket(ys, d, b)
  {
    if ys == [] {
      assert xs + ys == xs;
    } else {
      var m := |ys| - 1;
      BucketAppend(xs, ys[..m], d, b);
      assert (xs + ys)[..|xs| + m] == xs + ys[..m];
    }
  }

  /** How often z occurs. */
  ghost function Count<T>(xs: seq<T>, z: T): nat {
    if xs == [] then 0 else Count(xs[..|xs| - 1], z) + if xs[|xs| - 1] == z then 1 else 0
  }

  lemma CountSnoc<T>(xs: seq<T>, x: T, z: T)
    ensures Count(xs + [x], z) == Count(xs, z) + if x == z then 1 else 0
  {
    assert (xs + [x])[..|xs|] == xs;
  }

  lemma {:induction false} CountAppend<T>(xs: seq<T>, ys: seq<T>, z: T)
    ensures Count(xs + ys, z) == Count(xs, z) + Count(ys, z)
  {
    if ys == [] {
      assert xs + ys == xs;
    } else {
      var m := |ys| - 1;
      CountAppend(xs, ys[..m], z);
      assert (xs + ys)[..|xs| + m] == xs + ys[..m];
    }
  }

  lemma {:induction false} CountIs<T>(xs: seq<T>, z: T)
    ensures Count(xs, z) == multiset(xs)[z]
  {
    if xs != [] {
      CountIs(xs[..|xs| - 1], z);
      assert xs == xs[..|xs| - 1] + [xs[|xs| - 1]];
    }
  }

  lemma {:induction false} BucketCount<T>(xs: seq<T>, d: T -> byte, b: nat, z: T)
    ensures Count(Bucket(xs, d, b), z) == if d(z) == b then Count(xs, z) else 0
  {
    if xs != [] {
      var ys, x := xs[..|xs| - 1], xs[|xs| - 1];
      BucketCount(ys, d, b, z);
      CountSnoc(Bucket(ys, d, b), x, z);
    }
  }

  lemma {:induction false} BucketsCount<T>(xs: seq<T>, d: T -> byte, n: nat, z: T)
    ensures Count(Buckets(xs, d, n), z) == if d(z) < n then Count(xs, z) else 0
  {
    if n > 0 {
      BucketsCount(xs, d, n - 1, z);
      BucketCount(xs, d, n - 1, z);
      CountAppend(Buckets(xs, d, n - 1), Bucket(xs, d, n - 1), z);
    }
  }

  lemma {:induction false} PassesCount<T>(xs: seq<T>, key: T -> nat, n: nat, z: T)
    ensures Count(Passes(xs, key, n), z) == Count(xs, z)
  {
    if n > 0 {
      PassesCount(xs, key, n - 1, z);
      BucketsCount(Passes(xs, key, n - 1), ByteOf(key, n - 1), 256, z);
    }
  }

  lemma PassesPermute<T>(xs: seq<T>, key: T -> nat, n: nat)
    ensures multiset(Passes(xs, key, n)) == multiset(xs)
  {
    var ys := Passes(xs, key, n);
    forall z ensures multiset(ys)[z] == multiset(xs)[z] {
      PassesCount(xs, key, n, z);
      CountIs(ys, z);
      CountIs(xs, z);
    }
    Extensional(multiset(ys), multiset(xs));
  }

  lemma Extensional<T>(a: multiset<T>, b: multiset<T>)
    requires forall z :: a[z] == b[z]
    ensures a == b
  {
    forall z ensures z in a <==> z in b {
      assert a[z] == b[z];
    }
  }

  // -------------------------------------------------------------- bucket sizes survive other passes

  /** The number of elements with byte b and another byte below n. */
  function Tally<T>(xs: seq<T>, other: T -> byte, n: nat, d: T -> byte, b: nat): nat {
    if xs == [] then 0
    else
      var x := xs[|xs| - 1];
      Tally(xs[..|xs| - 1], other, n, d, b) + if other(x) < n && d(x) == b then 1 else 0
  }

  lemma {:induction false} TallyMore<T>(xs: seq<T>, other: T -> byte, n: nat, d: T -> byte, b: nat)
    requires n > 0
    ensures Tally(xs, other, n, d, b) == Tally(xs, other, n - 1, d, b) + |Bucket(Bucket(xs, other, n - 1), d, b)|
  {
    if xs != [] {
      var ys, x := xs[..|xs| - 1], xs[|xs| - 1];
      TallyMore(ys, other, n, d, b);
      var bs := Bucket(ys, other, n - 1);
      assert (bs + [x])[..|bs|] == bs;
    }
  }

  lemma {:induction false} TallyAll<T>(xs: seq<T>, other: T -> byte, d: T -> byte, b: nat)
    ensures Tally(xs, other, 256, d, b) == |Bucket(xs, d, b)| && Tally(xs, other, 0, d, b) == 0
  {
    if xs != [] {
      TallyAll(xs[..|xs| - 1], other, d, b);
    }
  }

  lemma {:induction false} TallyBuckets<T>(xs: seq<T>, other: T -> byte, n: nat, d: T -> byte, b: nat)
    ensures |Bucket(Buckets(xs, other, n), d, b)| == Tally(xs, other, n, d, b)
  {
    if n == 0 {
      TallyAll(xs, other, d, b);
    } else {
      TallyBuckets(xs, other, n - 1, d, b);
      TallyMore(xs, other, n, d, b);
      BucketAppend(Buckets(xs, other, n - 1), Bucket(xs, other, n - 1), d, b);
    }
  }

  lemma PassKeepsSize<T>(xs: seq<T>, other: T -> byte, d: T -> byte, b: nat)
    ensures |Bucket(Pass(xs, other), d, b)| == |Bucket(xs, d, b)|
  {
    TallyBuckets(xs, other, 256, d, b);
    TallyAll(xs, other, d, b);
  }

  // -------------------------------------------------------------- where a scatter puts the elements

  /** Where bucket b starts: the sum of the sizes before it. */
  function Start<T>(xs: seq<T>, d: T -> byte, b: nat): nat {
    if b == 0 then 0 else Start(xs, d, b - 1) + |Bucket(xs, d, b - 1)|
  }

  lemma {:induction false} PassKeepsStart<T>(xs: seq<T>, other: T -> byte, d: T -> byte, b: nat)
    ensures Start(Pass(xs, other), d, b) == Start(xs, d, b)
  {
    if b > 0 {
      PassKeepsStart(xs, other, d, b - 1);
      PassKeepsSize(xs, other, d, b - 1);
    }
  }

  lemma {:induction false} PassesKeepStart<T>(xs: seq<T>, key: T -> nat, n: nat, d: T -> byte, b: nat)
    ensures Start(Passes(xs, key, n), d, b) == Start(xs, d, b)
  {
    if n > 0 {
      PassesKeepStart(xs, key, n - 1, d, b);
      PassKeepsStart(Passes(xs, key, n - 1), ByteOf(key, n - 1), d, b);
    }
  }

  lemma {:induction false} StartMono<T>(xs: seq<T>, d: T -> byte, a: nat, b: nat)
    requires a <= b
    ensures Start(xs, d, a) <= Start(xs, d, b)
  {
    if a < b {
      StartMono(xs, d, a, b - 1);
    }
  }

  lemma StartNext<T>(xs: seq<T>, d: T -> byte, b: nat, next: nat)
    requires b < 256 && next == b + 1
    ensures Start(xs, d, next) == Start(xs, d, b) + |Bucket(xs, d, b)| <= |xs|
  {
    StartMono(xs, d, next, 256);
    LastStart(xs, d);
  }

  lemma {:induction false} BucketsLength<T>(xs: seq<T>, d: T -> byte, b: nat)
    ensures |Buckets(xs, d, b)| == Start(xs, d, b)
  {
    if b > 0 {
      BucketsLength(xs, d, b - 1);
    }
  }

  lemma {:induction false} StartIsUnder<T>(xs: seq<T>, d: T -> byte, n: nat)
    ensures Start(xs, d, n) == Tally(xs, d, n, Zeroth, 0)
  {
    if n == 0 {
      TallyAll(xs, d, Zeroth, 0);
    } else {
      StartIsUnder(xs, d, n - 1);
      TallyMore(xs, d, n, Zeroth, 0);
      ZerothBucket(Bucket(xs, d, n - 1));
    }
  }

  /** A byte function with a single bucket. */
  function Zeroth<T>(x: T): byte { 0 }

  lemma {:induction false} ZerothBucket<T>(xs: seq<T>)
    ensures Bucket(xs, Zeroth, 0) == xs
  {
    if xs != [] {
      ZerothBucket(xs[..|xs| - 1]);
    }
  }

  lemma LastStart<T>(xs: seq<T>, d: T -> byte)
    ensures |Pass(xs, d)| == Start(xs, d, 256) == |xs|
  {
    BucketsLength(xs, d, 256);
    StartIsUnder(xs, d, 256);
    TallyAll(xs, d, Zeroth, 0);
    ZerothBucket(xs);
  }

  lemma {:induction false} PassesLength<T>(xs: seq<T>, key: T -> nat, n: nat)
    ensures |Passes(xs, key, n)| == |xs|
  {
    if n > 0 {
      PassesLength(xs, key, n - 1);
      LastStart(Passes(xs, key, n - 1), ByteOf(key, n - 1));
    }
  }

  /** After n elements, bucket b has received its first elements, from its start on. */
  ghost predicate PlacedIn<T>(out: seq<T>, xs: seq<T>, d: T -> byte, n: nat, b: nat)
    requires n <= |xs|
  {
    var s, ys := Start(xs, d, b), Bucket(xs[..n], d, b);
    s + |ys| <= |out| && out[s..s + |ys|] == ys
  }

  lemma NextBucket<T>(xs: seq<T>, d: T -> byte, n: nat, b: nat)
    requires n < |xs|
    ensures Bucket(xs[..n + 1], d, b) ==
            if d(xs[n]) == b then Bucket(xs[..n], d, b) + [xs[n]] else Bucket(xs[..n], d, b)
  {
    assert xs[..n + 1][..n] == xs[..n];
  }

  lemma {:induction false} PrefixFits<T>(xs: seq<T>, d: T -> byte, n: nat, b: nat)
    requires n <= |xs|
    ensures |Bucket(xs[..n], d, b)| <= |Bucket(xs, d, b)|
    decreases |xs| - n
  {
    if n == |xs| {
      assert xs[..n] == xs;
    } else {
      PrefixFits(xs, d, n + 1, b);
      NextBucket(xs, d, n, b);
    }
  }

  /** The next element goes to a cell of its own bucket that no bucket has used. */
  lemma NextCell<T>(xs: seq<T>, d: T -> byte, n: nat, b: nat)
    requires n < |xs| && b < 256
    ensures var c := d(xs[n]);
      var at := Start(xs, d, c) + |Bucket(xs[..n], d, c)|;
      && at < |xs|
      && (b < c ==> Start(xs, d, b) + |Bucket(xs[..n], d, b)| <= at)
      && (c < b ==> at < Start(xs, d, b))
  {
    var c := d(xs[n]);
    NextBucket(xs, d, n, c);
    PrefixFits(xs, d, n + 1, c);
    PrefixFits(xs, d, n, b);
    var c1, b1 := c + 1, b + 1;
    assert Start(xs, d, c1) == Start(xs, d, c) + |Bucket(xs, d, c)|;
    assert Start(xs, d, b1) == Start(xs, d, b) + |Bucket(xs, d, b)|;
    StartMono(xs, d, c1, 256);
    LastStart(xs, d);
    if b < c {
      StartMono(xs, d, b1, c);
    } else if c < b {
      StartMono(xs, d, c1, b);
    }
  }

  /** Placing the next element keeps what is placed, in its own bucket and in every other. */
  lemma PlaceNext<T>(out: seq<T>, xs: seq<T>, d: T -> byte, n: nat, b: nat)
    requires n < |xs| <= |out| && b < 256 && PlacedIn(out, xs, d, n, b)
    ensures var c := d(xs[n]);
      var at := Start(xs, d, c) + |Bucket(xs[..n], d, c)|;
      at < |xs| && PlacedIn(out[at := xs[n]], xs, d, n + 1, b)
  {
    var c := d(xs[n]);
    var at := Start(xs, d, c) + |Bucket(xs[..n], d, c)|;
    NextCell(xs, d, n, b);
    NextBucket(xs, d, n, b);
    var s, m := Start(xs, d, b), |Bucket(xs[..n], d, b)|;
    var e := out[at := xs[n]];
    assert e[s..s + m] == out[s..s + m];
    if b == c {
      assert e[s..s + m + 1] == e[s..s + m] + [xs[n]];
    }
  }

  ghost predicate Placed<T>(out: seq<T>, xs: seq<T>, d: T -> byte, n: nat)
    requires n <= |xs|
  {
    forall b :: 0 <= b < 256 ==> PlacedIn(out, xs, d, n, b)
  }

  lemma NothingPlaced<T>(out: seq<T>, xs: seq<T>, d: T -> byte)
    requires |xs| <= |out|
    ensures Placed(out, xs, d, 0)
  {
    forall b | 0 <= b < 256 ensures PlacedIn(out, xs, d, 0, b) {
      StartMono(xs, d, b, 256);
      LastStart(xs, d);
    }
  }

  lemma OneMorePlaced<T>(out: seq<T>, xs: seq<T>, d: T -> byte, n: nat, at: nat)
    requires n < |xs| <= |out| && Placed(out, xs, d, n)
    requires at == Start(xs, d, d(xs[n])) + |Bucket(xs[..n], d, d(xs[n]))|
    ensures at < |xs| && Placed(out[at := xs[n]], xs, d, n + 1)
  {
    PlaceNext(out, xs, d, n, d(xs[n]));
    var out', n' := out[at := xs[n]], n + 1;
    forall b | 0 <= b < 256 ensures PlacedIn(out', xs, d, n', b) {
      PlaceNext(out, xs, d, n, b);
    }
  }

  lemma {:induction false} AllPlaced<T>(out: seq<T>, xs: seq<T>, d: T -> byte, m: nat)
    requires m <= 256 && |xs| <= |out| && Placed(out, xs, d, |xs|)
    ensures Start(xs, d, m) <= |out| && out[..Start(xs, d, m)] == Buckets(xs, d, m)
  {
    StartMono(xs, d, m, 256);
    LastStart(xs, d);
    if m > 0 {
      AllPlaced(out, xs, d, m - 1);
      assert PlacedIn(out, xs, d, |xs|, m - 1) && xs[..|xs|] == xs;
      var s, e := Start(xs, d, m - 1), Start(xs, d, m);
      assert out[..e] == out[..s] + out[s..e];
    }
  }
}
