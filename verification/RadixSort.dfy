/**
 radix_sort and counting_sort on arrays.  The result is stated without passes or counts: it is the stable
 permutation of the input ordered by the original keys.
 */
module RadixSort {
  import opened Arithmetic
  import opened RadixKeys
  import opened RadixPasses

  // -------------------------------------------------------------- specification

  function Radix(kind: Kind, x: int): nat {
    if IsKey(kind, x) then ToRadix(kind, x) else 0
  }

  /** The radix key of an element. */
  function RadixOf<T>(kind: Kind, key: T -> int): T -> nat {
    x => Radix(kind, key(x))
  }

  /** The elements with a given key, in order. */
  function WithKey<T>(xs: seq<T>, key: T -> int, k: int): seq<T> {
    if xs == [] then []
    else
      var x := xs[|xs| - 1];
      var ys := WithKey(xs[..|xs| - 1], key, k);
      if key(x) == k then ys + [x] else ys
  }

  ghost predicate AllKeys<T>(kind: Kind, xs: seq<T>, key: T -> int) {
    forall i :: 0 <= i < |xs| ==> IsKey(kind, key(xs[i]))
  }

  /** ys is xs rearranged, in the order of the keys, equal keys in their old order. */
  ghost predicate StableSort<T>(kind: Kind, key: T -> int, xs: seq<T>, ys: seq<T>) {
    && multiset(ys) == multiset(xs)
    && AllKeys(kind, ys, key)
    && (forall i, j :: 0 <= i < j < |ys| ==> !Before(kind, key(ys[j]), key(ys[i])))
    && (forall k :: WithKey(ys, key, k) == WithKey(xs, key, k))
  }

  lemma {:induction false} KeysOfPermutation<T>(kind: Kind, key: T -> int, xs: seq<T>, ys: seq<T>)
    requires multiset(ys) == multiset(xs) && AllKeys(kind, xs, key)
    ensures AllKeys(kind, ys, key)
  {
    forall i | 0 <= i < |ys| ensures IsKey(kind, key(ys[i])) {
      assert ys[i] in multiset(ys);
      assert ys[i] in multiset(xs);
    }
  }

  /** Equal radix keys are equal keys: the class of a key under all passes is the elements with that key. */
  lemma {:induction false} ClassIsWithKey<T>(kind: Kind, key: T -> int, xs: seq<T>, n: nat, k: int)
    requires AllKeys(kind, xs, key) && IsKey(kind, k)
    requires forall x :: IsKey(kind, x) ==> ToRadix(kind, x) < Pow2(8 * n)
    ensures Class(xs, RadixOf(kind, key), n, ToRadix(kind, k)) == WithKey(xs, key, k)
  {
    if xs != [] {
      var x := xs[|xs| - 1];
      ClassIsWithKey(kind, key, xs[..|xs| - 1], n, k);
      RadixOrder(kind, key(x), k);
      LowOrder(ToRadix(kind, key(x)), ToRadix(kind, k), n);
      LowIs(ToRadix(kind, key(x)), n);
      LowIs(ToRadix(kind, k), n);
    }
  }

  lemma {:induction false} NoneWithKey<T>(kind: Kind, key: T -> int, xs: seq<T>, k: int)
    requires AllKeys(kind, xs, key) && !IsKey(kind, k)
    ensures WithKey(xs, key, k) == []
  {
    if xs != [] {
      NoneWithKey(kind, key, xs[..|xs| - 1], k);
    }
  }

  /** As many passes as the key has bytes sort stably in the order of the original keys. */
  lemma PassesAreStableSort<T>(kind: Kind, key: T -> int, xs: seq<T>, n: nat)
    requires AllKeys(kind, xs, key) && forall x :: IsKey(kind, x) ==> ToRadix(kind, x) < Pow2(8 * n)
    ensures StableSort(kind, key, xs, Passes(xs, RadixOf(kind, key), n))
  {
    var r := RadixOf(kind, key);
    var ys := Passes(xs, r, n);
    PassesPermute(xs, r, n);
    KeysOfPermutation(kind, key, xs, ys);
    PassesSort(xs, r, n);
    forall i, j | 0 <= i < j < |ys| ensures !Before(kind, key(ys[j]), key(ys[i])) {
      assert LowLe(r(ys[i]), r(ys[j]), n);
      LowOrder(r(ys[i]), r(ys[j]), n);
      LowIs(r(ys[i]), n);
      LowIs(r(ys[j]), n);
      RadixOrder(kind, key(ys[j]), key(ys[i]));
    }
    forall k ensures WithKey(ys, key, k) == WithKey(xs, key, k) {
      if IsKey(kind, k) {
        PassesKeepClass(xs, r, n, n, ToRadix(kind, k));
        ClassIsWithKey(kind, key, xs, n, k);
        ClassIsWithKey(kind, key, ys, n, k);
      } else {
        NoneWithKey(kind, key, xs, k);
        NoneWithKey(kind, key, ys, k);
      }
    }
  }

  lemma AllPassesSort<T>(kind: Kind, key: T -> int, xs: seq<T>)
    requires Supported(kind) && AllKeys(kind, xs, key)
    ensures StableSort(kind, key, xs, Passes(xs, RadixOf(kind, key), KeyBytes(kind)))
  {
    forall x | IsKey(kind, x) ensures ToRadix(kind, x) < Pow2(8 * KeyBytes(kind)) {
      RadixFits(kind, x);
    }
    PassesAreStableSort(kind, key, xs, KeyBytes(kind));
  }

  // -------------------------------------------------------------- histograms and starts

  /** The number of elements whose byte i is b. */
  function Size<T>(xs: seq<T>, key: T -> nat, i: nat, b: nat): nat {
    |Bucket(xs, ByteOf(key, i), b)|
  }

  /** `key >> 8 * i`. */
  function Shifted(key: nat, i: nat): nat {
    if i == 0 then key else Shifted(key, i - 1) / 256
  }

  lemma {:induction false} ShiftFirst(key: nat, i: nat)
    ensures Shifted(key / 256, i) == Shifted(key, i + 1)
  {
    if i > 0 {
      ShiftFirst(key, i - 1);
    }
  }

  lemma {:induction false} ShiftedByte(key: nat, i: nat)
    ensures Byte(key, i) == Shifted(key, i) % 256
  {
    if i > 0 {
      ShiftedByte(key / 256, i - 1);
      ShiftFirst(key, i - 1);
    }
  }

  lemma {:induction false} SizeBound<T>(xs: seq<T>, key: T -> nat, i: nat, b: nat)
    ensures Size(xs, key, i, b) <= |xs|
  {
    if xs != [] {
      SizeBound(xs[..|xs| - 1], key, i, b);
    }
  }

  lemma SizeNext<T>(xs: seq<T>, key: T -> nat, i: nat, n: nat, b: nat)
    requires n < |xs|
    ensures Size(xs[..n + 1], key, i, b) ==
            Size(xs[..n], key, i, b) + if Shifted(key(xs[n]), i) % 256 == b then 1 else 0
    ensures Size(xs[..n], key, i, b) <= n
  {
    NextBucket(xs, ByteOf(key, i), n, b);
    ShiftedByte(key(xs[n]), i);
    SizeBound(xs[..n], key, i, b);
  }

  /** All histograms in one walk over the source.  No counter passes the limit of its type. */
  method Histograms<T>(first: array<T>, key: T -> nat, bytes: nat, limit: nat) returns (counts: array2<nat>)
    requires first.Length <= limit
    ensures fresh(counts) && counts.Length0 == bytes && counts.Length1 == 256
    ensures forall i, b {:trigger counts[i, b]} :: 0 <= i < bytes && 0 <= b < 256 ==>
      counts[i, b] == Size(first[..], key, i, b)
  {
    counts := new nat[bytes, 256]((i, b) => 0);
    var n := 0;
    while n < first.Length
      invariant n <= first.Length
      invariant forall i, b {:trigger counts[i, b]} :: 0 <= i < bytes && 0 <= b < 256 ==>
        counts[i, b] == Size(first[..n], key, i, b)
    {
      CountElement(first[..], key, n, counts, limit);
      assert first[..][..n] == first[..n] && first[..][..n + 1] == first[..n + 1];
      n := n + 1;
    }
    assert first[..n] == first[..];
  }

  /** One element counted in every byte's histogram, its key shifted down a byte at a time. */
  method CountElement<T>(xs: seq<T>, key: T -> nat, n: nat, counts: array2<nat>, limit: nat)
    requires n < |xs| <= limit && counts.Length1 == 256
    requires forall i, b {:trigger counts[i, b]} :: 0 <= i < counts.Length0 && 0 <= b < 256 ==>
      counts[i, b] == Size(xs[..n], key, i, b)
    modifies counts
    ensures forall i, b {:trigger counts[i, b]} :: 0 <= i < counts.Length0 && 0 <= b < 256 ==>
      counts[i, b] == Size(xs[..n + 1], key, i, b)
  {
    var k := key(xs[n]);
    var i := 0;
    while i < counts.Length0
      invariant i <= counts.Length0 && k == Shifted(key(xs[n]), i)
      invariant forall j, b {:trigger counts[j, b]} :: 0 <= j < i && 0 <= b < 256 ==>
        counts[j, b] == Size(xs[..n + 1], key, j, b)
      invariant forall j, b {:trigger counts[j, b]} :: i <= j < counts.Length0 && 0 <= b < 256 ==>
        counts[j, b] == Size(xs[..n], key, j, b)
    {
      forall b | 0 <= b < 256
        ensures Size(xs[..n + 1], key, i, b) == Size(xs[..n], key, i, b) + if k % 256 == b then 1 else 0
      {
        SizeNext(xs, key, i, n, b);
      }
      SizeNext(xs, key, i, n, k % 256);
      assert counts[i, k % 256] < limit;
      counts[i, k % 256] := counts[i, k % 256] + 1;
      k := k / 256;
      i := i + 1;
    }
  }

  /** Each histogram becomes the starts of its buckets.  No total passes the limit. */
  method PrefixSums<T>(ghost xs: seq<T>, ghost key: T -> nat, counts: array2<nat>, limit: nat)
    requires |xs| <= limit && counts.Length1 == 256
    requires forall i, b {:trigger counts[i, b]} :: 0 <= i < counts.Length0 && 0 <= b < 256 ==>
      counts[i, b] == Size(xs, key, i, b)
    modifies counts
    ensures forall i, b {:trigger counts[i, b]} :: 0 <= i < counts.Length0 && 0 <= b < 256 ==>
      counts[i, b] == Start(xs, ByteOf(key, i), b)
  {
    var i := 0;
    while i < counts.Length0
      invariant i <= counts.Length0
      invariant forall j, b {:trigger counts[j, b]} :: 0 <= j < i && 0 <= b < 256 ==>
        counts[j, b] == Start(xs, ByteOf(key, j), b)
      invariant forall j, b {:trigger counts[j, b]} :: i <= j < counts.Length0 && 0 <= b < 256 ==>
        counts[j, b] == Size(xs, key, j, b)
    {
      PrefixSum(xs, key, i, counts, limit);
      i := i + 1;
    }
  }

  method PrefixSum<T>(ghost xs: seq<T>, ghost key: T -> nat, i: nat, counts: array2<nat>, limit: nat)
    requires |xs| <= limit && i < counts.Length0 && counts.Length1 == 256
    requires forall b {:trigger counts[i, b]} :: 0 <= b < 256 ==> counts[i, b] == Size(xs, key, i, b)
    modifies counts
    ensures forall b {:trigger counts[i, b]} :: 0 <= b < 256 ==> counts[i, b] == Start(xs, ByteOf(key, i), b)
    ensures forall j, b :: 0 <= j < counts.Length0 && j != i && 0 <= b < 256 ==> counts[j, b] == old(counts[j, b])
  {
    var total, c := 0, 0;
    while c < 256
      invariant c <= 256 && total == Start(xs, ByteOf(key, i), c)
      invariant forall b {:trigger counts[i, b]} :: 0 <= b < c ==> counts[i, b] == Start(xs, ByteOf(key, i), b)
      invariant forall b {:trigger counts[i, b]} :: c <= b < 256 ==> counts[i, b] == Size(xs, key, i, b)
      invariant forall j, b :: 0 <= j < counts.Length0 && j != i && 0 <= b < 256 ==> counts[j, b] == old(counts[j, b])
    {
      var count := counts[i, c];
      counts[i, c] := total;
      StartNext(xs, ByteOf(key, i), c, c + 1);
      assert total + count <= limit;
      total := total + count;
      c := c + 1;
    }
  }

  // -------------------------------------------------------------- one scatter pass

  /** What the counters of the pass have become after n elements. */
  ghost predicate Advanced<T>(xs: seq<T>, key: T -> nat, i: nat, n: nat, b: nat, count: nat)
    requires n <= |xs|
  {
    count == Start(xs, ByteOf(key, i), b) + Size(xs[..n], key, i, b)
  }

  method Scatter<T>(src: array<T>, dst: array<T>, size: nat, key: T -> nat, i: nat, counts: array2<nat>, limit: nat)
    requires src != dst && size <= src.Length && size <= dst.Length && size <= limit
    requires i < counts.Length0 && counts.Length1 == 256
    requires forall b {:trigger counts[i, b]} :: 0 <= b < 256 ==> counts[i, b] == Start(src[..size], ByteOf(key, i), b)
    modifies dst, counts
    ensures dst[..size] == Pass(src[..size], ByteOf(key, i)) && dst[size..] == old(dst[size..])
    ensures forall j, b :: 0 <= j < counts.Length0 && j != i && 0 <= b < 256 ==> counts[j, b] == old(counts[j, b])
  {
    ghost var xs, d := src[..size], ByteOf(key, i);
    NothingPlaced(dst[..], xs, d);
    var n := 0;
    while n < size
      invariant n <= size && src[..size] == xs && dst[size..] == old(dst[size..])
      invariant forall b :: 0 <= b < 256 ==> Advanced(xs, key, i, n, b, counts[i, b])
      invariant Placed(dst[..], xs, d, n)
      invariant forall j, b :: 0 <= j < counts.Length0 && j != i && 0 <= b < 256 ==> counts[j, b] == old(counts[j, b])
    {
      var bucket := Shifted(key(src[n]), i) % 256;
      ShiftedByte(key(src[n]), i);
      assert Advanced(xs, key, i, n, bucket, counts[i, bucket]);
      OneMorePlaced(dst[..], xs, d, n, counts[i, bucket]);
      forall b | 0 <= b < 256
        ensures Size(xs[..n + 1], key, i, b) == Size(xs[..n], key, i, b) + if b == bucket then 1 else 0
      {
        SizeNext(xs, key, i, n, b);
      }
      ghost var out := dst[..][counts[i, bucket] := src[n]];
      dst[counts[i, bucket]] := src[n];
      assert dst[..] == out;
      counts[i, bucket] := counts[i, bucket] + 1;
      assert counts[i, bucket] <= limit;
      n := n + 1;
    }
    AllPlaced(dst[..], xs, d, 256);
    LastStart(xs, d);
    assert dst[..][..size] == dst[..size];
  }

  // -------------------------------------------------------------- the sorts

  /** numeric_limits<CountT>::max() of the counter type chosen for a size. */
  function CountLimit(size: nat): (limit: nat)
    requires size <= 0xFFFF_FFFF_FFFF_FFFF
    ensures size <= limit
  {
    if size <= 0xFF then 0xFF
    else if size <= 0xFFFF then 0xFFFF
    else if size <= 0xFFFF_FFFF then 0xFFFF_FFFF
    else 0xFFFF_FFFF_FFFF_FFFF
  }

  /** Where the elements are after i passes. */
  ghost function Current<T>(first: array<T>, out: array<T>, i: nat): seq<T>
    requires first.Length <= out.Length
    reads first, out
  {
    if i % 2 == 0 then first[..first.Length] else out[..first.Length]
  }

  /** Scatter passes from the lowest byte, back and forth between the two buffers. */
  method RadixSortImpl<T>(first: array<T>, out: array<T>, key: T -> nat, bytes: nat, limit: nat)
    returns (inOutput: bool)
    requires first != out && first.Length <= out.Length && first.Length <= limit
    modifies first, out
    ensures inOutput <==> bytes % 2 == 1
    ensures Current(first, out, bytes) == Passes(old(first[..]), key, bytes)
    ensures out[first.Length..] == old(out[first.Length..])
  {
    ghost var xs := first[..];
    var counts := Histograms(first, key, bytes, limit);
    PrefixSums(xs, key, counts, limit);
    assert first[..first.Length] == xs;
    var i := 0;
    while i < bytes
      invariant i <= bytes && out[first.Length..] == old(out[first.Length..])
      invariant Current(first, out, i) == Passes(xs, key, i)
      invariant forall j, b {:trigger counts[j, b]} :: i <= j < bytes && 0 <= b < 256 ==>
        counts[j, b] == Start(xs, ByteOf(key, j), b)
    {
      ScatterPass(xs, first, out, key, i, counts, limit);
      i := i + 1;
    }
    inOutput := bytes % 2 == 1;
  }

  /** Even passes go from the source to the output and odd ones back. */
  method ScatterPass<T>(ghost xs: seq<T>, first: array<T>, out: array<T>, key: T -> nat, i: nat,
                        counts: array2<nat>, limit: nat)
    requires first != out && first.Length <= out.Length && first.Length <= limit
    requires i < counts.Length0 && counts.Length1 == 256 && Current(first, out, i) == Passes(xs, key, i)
    requires forall b {:trigger counts[i, b]} :: 0 <= b < 256 ==> counts[i, b] == Start(xs, ByteOf(key, i), b)
    modifies first, out, counts
    ensures Current(first, out, i + 1) == Passes(xs, key, i + 1)
    ensures out[first.Length..] == old(out[first.Length..])
    ensures forall j, b :: 0 <= j < counts.Length0 && j != i && 0 <= b < 256 ==> counts[j, b] == old(counts[j, b])
  {
    forall b | 0 <= b < 256 ensures counts[i, b] == Start(Passes(xs, key, i), ByteOf(key, i), b) {
      PassesKeepStart(xs, key, i, ByteOf(key, i), b);
    }
    if i % 2 == 0 {
      Scatter(first, out, first.Length, key, i, counts, limit);
    } else {
      Scatter(out, first, first.Length, key, i, counts, limit);
    }
  }

  /** One pass by the only byte, always into the output. */
  method CountingSortImpl<T>(first: array<T>, out: array<T>, key: T -> nat, limit: nat)
    requires first != out && first.Length <= out.Length && first.Length <= limit
    modifies out
    ensures out[..first.Length] == Passes(first[..], key, 1) && out[first.Length..] == old(out[first.Length..])
  {
    ghost var xs := first[..];
    var counts := Histograms(first, key, 1, limit);
    PrefixSums(xs, key, counts, limit);
    assert first[..first.Length] == xs;
    Scatter(first, out, first.Length, key, 0, counts, limit);
    assert Passes(xs, key, 1) == Pass(Passes(xs, key, 0), ByteOf(key, 0));
  }

  /** Two buckets: the false keys from the start and the true ones after them. */
  method CountingSortBool<T>(first: array<T>, out: array<T>, key: T -> int, limit: nat)
    requires first != out && first.Length <= out.Length && first.Length <= limit
    requires AllKeys(Boolean, first[..], key)
    modifies out
    ensures out[..first.Length] == Passes(first[..], RadixOf(Boolean, key), 1)
    ensures out[first.Length..] == old(out[first.Length..])
  {
    var numFalse := CountFalse(first, key, limit);
    Partition(first, out, key, numFalse);
    OnlyTwo(first[..], key, 256);
    assert Passes(first[..], RadixOf(Boolean, key), 1) ==
           Pass(Passes(first[..], RadixOf(Boolean, key), 0), ByteOf(RadixOf(Boolean, key), 0));
  }

  /** The byte of a boolean key. */
  function Truth<T>(key: T -> int): T -> byte {
    ByteOf(RadixOf(Boolean, key), 0)
  }

  method CountFalse<T>(first: array<T>, key: T -> int, limit: nat) returns (numFalse: nat)
    requires AllKeys(Boolean, first[..], key) && first.Length <= limit
    ensures numFalse == |Bucket(first[..], Truth(key), 0)|
  {
    numFalse := 0;
    var n := 0;
    while n < first.Length
      invariant n <= first.Length && numFalse == |Bucket(first[..][..n], Truth(key), 0)| <= n
    {
      NextBucket(first[..], Truth(key), n, 0);
      BooleanByte(first[..], key, n);
      if key(first[n]) == 0 {
        assert numFalse + 1 <= limit;
        numFalse := numFalse + 1;
      }
      n := n + 1;
    }
    assert first[..][..n] == first[..];
  }

  method Partition<T>(first: array<T>, out: array<T>, key: T -> int, numFalse: nat)
    requires first != out && first.Length <= out.Length && AllKeys(Boolean, first[..], key)
    requires numFalse == |Bucket(first[..], Truth(key), 0)|
    modifies out
    ensures out[..first.Length] == Bucket(first[..], Truth(key), 0) + Bucket(first[..], Truth(key), 1)
    ensures out[first.Length..] == old(out[first.Length..])
  {
    ghost var xs, d := first[..], Truth(key);
    TwoBuckets(xs, key, |xs|);
    assert xs[..|xs|] == xs && xs[..0] == [];
    var falseAt, trueAt := 0, numFalse;
    ghost var falses, trues: seq<T> := [], [];
    var n := 0;
    while n < first.Length
      invariant n <= first.Length && first[..] == xs && out[first.Length..] == old(out[first.Length..])
      invariant falses == Bucket(xs[..n], d, 0) && trues == Bucket(xs[..n], d, 1)
      invariant falseAt == |falses| <= numFalse && trueAt == numFalse + |trues| <= first.Length
      invariant Parted(out[..], falses, trues, numFalse)
    {
      NextTruth(xs, key, n);
      ghost var before := out[..];
      if key(first[n]) != 0 {
        PartTrue(before, falses, trues, numFalse, xs[n]);
        out[trueAt] := first[n];
        assert out[..] == before[trueAt := xs[n]];
        trueAt, trues := trueAt + 1, trues + [first[n]];
      } else {
        PartFalse(before, falses, trues, numFalse, xs[n]);
        out[falseAt] := first[n];
        assert out[..] == before[falseAt := xs[n]];
        falseAt, falses := falseAt + 1, falses + [first[n]];
      }
      n := n + 1;
    }
    WholeParted(out[..], falses, trues);
  }

  /** The false elements so far from the start, the true ones from where the false ones will end. */
  ghost predicate Parted<T>(out: seq<T>, falses: seq<T>, trues: seq<T>, numFalse: nat) {
    && |falses| <= numFalse && numFalse + |trues| <= |out|
    && out[..|falses|] == falses && out[numFalse..numFalse + |trues|] == trues
  }

  lemma PartTrue<T>(out: seq<T>, falses: seq<T>, trues: seq<T>, numFalse: nat, x: T)
    requires Parted(out, falses, trues, numFalse) && numFalse + |trues| < |out|
    ensures Parted(out[numFalse + |trues| := x], falses, trues + [x], numFalse)
  {
    var at := numFalse + |trues|;
    var out' := out[at := x];
    assert out'[..|falses|] == out[..|falses|];
    assert out'[numFalse..at + 1] == out[numFalse..at] + [x];
  }

  lemma PartFalse<T>(out: seq<T>, falses: seq<T>, trues: seq<T>, numFalse: nat, x: T)
    requires Parted(out, falses, trues, numFalse) && |falses| < numFalse
    ensures Parted(out[|falses| := x], falses + [x], trues, numFalse)
  {
    var at, end := |falses|, numFalse + |trues|;
    var out' := out[at := x];
    assert out'[numFalse..end] == out[numFalse..end];
    assert out'[..at + 1] == out[..at] + [x];
  }

  lemma WholeParted<T>(out: seq<T>, falses: seq<T>, trues: seq<T>)
    requires Parted(out, falses, trues, |falses|)
    ensures |falses| + |trues| <= |out| && out[..|falses| + |trues|] == falses + trues
  {
    assert out[..|falses| + |trues|] == out[..|falses|] + out[|falses|..|falses| + |trues|];
  }

  /** What the next element does to the two buckets, which stay within their sizes. */
  lemma NextTruth<T>(xs: seq<T>, key: T -> int, n: nat)
    requires AllKeys(Boolean, xs, key) && n < |xs|
    ensures var f, t := Bucket(xs[..n], Truth(key), 0), Bucket(xs[..n], Truth(key), 1);
      && Bucket(xs[..n + 1], Truth(key), 0) == (if key(xs[n]) != 0 then f else f + [xs[n]])
      && Bucket(xs[..n + 1], Truth(key), 1) == (if key(xs[n]) != 0 then t + [xs[n]] else t)
    ensures |Bucket(xs[..n + 1], Truth(key), 0)| <= |Bucket(xs, Truth(key), 0)|
    ensures |Bucket(xs[..n + 1], Truth(key), 1)| <= |Bucket(xs, Truth(key), 1)|
  {
    NextBucket(xs, Truth(key), n, 0);
    NextBucket(xs, Truth(key), n, 1);
    PrefixFits(xs, Truth(key), n + 1, 0);
    PrefixFits(xs, Truth(key), n + 1, 1);
    BooleanByte(xs, key, n);
  }

  lemma BooleanByte<T>(xs: seq<T>, key: T -> int, n: nat)
    requires AllKeys(Boolean, xs, key) && n < |xs|
    ensures Truth(key)(xs[n]) == key(xs[n])
  {
    assert IsKey(Boolean, key(xs[n]));
  }

  /** Boolean keys fill two buckets. */
  lemma {:induction false} TwoBuckets<T>(xs: seq<T>, key: T -> int, n: nat)
    requires AllKeys(Boolean, xs, key) && n <= |xs|
    ensures |Bucket(xs[..n], Truth(key), 0)| + |Bucket(xs[..n], Truth(key), 1)| == n
  {
    if n == 0 {
      assert xs[..n] == [];
    } else {
      var m: nat := n - 1;
      TwoBuckets(xs, key, m);
      NextTruth(xs, key, m);
      assert xs[..m + 1] == xs[..n];
    }
  }

  lemma {:induction false} OnlyTwo<T>(xs: seq<T>, key: T -> int, m: nat)
    requires AllKeys(Boolean, xs, key) && m >= 2
    ensures var d := Truth(key);
      Buckets(xs, d, m) == Bucket(xs, d, 0) + Bucket(xs, d, 1)
  {
    var d := Truth(key);
    if m == 2 {
      assert Buckets(xs, d, 2) == Buckets(xs, d, 1) + Bucket(xs, d, 1);
      assert Buckets(xs, d, 1) == [] + Bucket(xs, d, 0);
    } else {
      OnlyTwo(xs, key, m - 1);
      EmptyBucket(xs, key, m - 1);
    }
  }

  lemma {:induction false} EmptyBucket<T>(xs: seq<T>, key: T -> int, b: nat)
    requires AllKeys(Boolean, xs, key) && b >= 2
    ensures Bucket(xs, Truth(key), b) == []
  {
    if xs != [] {
      EmptyBucket(xs[..|xs| - 1], key, b);
      BooleanByte(xs, key, |xs| - 1);
    }
  }

  /** counting_sort: keys of one byte. */
  method CountingSort<T>(kind: Kind, first: array<T>, out: array<T>, key: T -> int)
    requires Supported(kind) && KeySize(kind) == 1 && AllKeys(kind, first[..], key)
    requires first != out && first.Length <= out.Length && first.Length <= 0xFFFF_FFFF_FFFF_FFFF
    modifies out
    ensures StableSort(kind, key, first[..], out[..first.Length])
    ensures out[first.Length..] == old(out[first.Length..])
  {
    ghost var xs := first[..];
    if kind.Boolean? {
      CountingSortBool(first, out, key, CountLimit(first.Length));
    } else {
      CountingSortImpl(first, out, RadixOf(kind, key), CountLimit(first.Length));
    }
    AllPassesSort(kind, key, xs);
  }

  lemma EvenBytes(kind: Kind)
    requires Supported(kind) && KeySize(kind) != 1
    ensures KeyBytes(kind) % 2 == 0
  {}

  /** radix_sort: the buffer that the result names holds the stable permutation of the source in key order. */
  method RadixSort<T>(kind: Kind, first: array<T>, out: array<T>, key: T -> int) returns (inOutput: bool)
    requires Supported(kind) && AllKeys(kind, first[..], key)
    requires first != out && first.Length <= out.Length && first.Length <= 0xFFFF_FFFF_FFFF_FFFF
    modifies first, out
    ensures StableSort(kind, key, old(first[..]), if inOutput then out[..first.Length] else first[..])
    ensures out[first.Length..] == old(out[first.Length..])
    ensures inOutput <==> KeySize(kind) == 1
  {
    if KeySize(kind) == 1 {
      CountingSort(kind, first, out, key);
      inOutput := true;
    } else {
      ghost var xs := first[..];
      EvenBytes(kind);
      inOutput := RadixSortImpl(first, out, RadixOf(kind, key), KeyBytes(kind), CountLimit(first.Length));
      AllPassesSort(kind, key, xs);
      assert first[..first.Length] == first[..];
    }
  }
}
