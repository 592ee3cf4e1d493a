/**
 The ring storage of `work_stealing_deque`: a power-of-two buffer indexed by the low bits of an ever growing
 index, and its growth by copying.
 */
module WorkStealingRing {
  import opened Arithmetic
  import opened Bits
  import opened Wrappers

  /** `std::bit_ceil` as used for the initial capacity. */
  function BitCeil(n: nat, k: nat := 0): (c: nat)
    decreases n - Pow2(k)
  {
    if Pow2(k) >= n then Pow2(k) else BitCeil(n, k + 1)
  }

  ghost predicate LeastPower(n: nat, j: nat) {
    n <= Pow2(j) && (j == 0 || Pow2(j - 1) < n)
  }

  lemma {:induction false} BitCeilIsLeast(n: nat, k: nat) returns (j: nat)
    requires k == 0 || Pow2(k - 1) < n
    ensures BitCeil(n, k) == Pow2(j) && LeastPower(n, j)
    decreases n - Pow2(k)
  {
    if Pow2(k) < n {
      j := BitCeilIsLeast(n, k + 1);
    } else {
      j := k;
    }
  }

  /** A ring as a value; uninitialised cells are None. */
  datatype Ring<T> = Ring(log: nat, data: seq<Option<T>>) {
    function Capacity(): nat { Pow2(log) }

    ghost predicate Valid() { |data| == Capacity() }

    /** `data()[ index & m_mask ]`. */
    function Cell(index: nat): (c: nat)
      requires Valid()
      ensures c < |data|
    {
      MaskIsMod(index, log);
      And(index, Capacity() - 1)
    }

    function Load(index: nat): Option<T>
      requires Valid()
    {
      data[Cell(index)]
    }

    function Store(index: nat, value: Option<T>): (r: Ring<T>)
      requires Valid()
      ensures r.Valid() && r.log == log
    {
      this.(data := data[Cell(index) := value])
    }
  }

  /** The cells from `i` up to `bottom` of one ring copied into another. */
  function Copy<T>(src: Ring<T>, dst: Ring<T>, i: nat, bottom: nat): (r: Ring<T>)
    requires src.Valid() && dst.Valid()
    ensures r.Valid() && r.log == dst.log
    decreases bottom - i
  {
    if i >= bottom then dst else Copy(src, dst.Store(i, src.Load(i)), i + 1, bottom)
  }

  /** Indices less than a capacity apart do not share a cell. */
  lemma SameCell<T>(ring: Ring<T>, i: nat, j: nat)
    requires ring.Valid() && i <= j < i + ring.Capacity() && ring.Cell(i) == ring.Cell(j)
    ensures i == j
  {
    MaskIsMod(i, ring.log);
    MaskIsMod(j, ring.log);
    SameResidue(i, j, ring.Capacity());
  }

  lemma SameResidue(i: nat, j: nat, c: nat)
    requires c > 0 && i <= j < i + c && i % c == j % c
    ensures i == j
  {
    DivModLaw(i, c);
    DivModLaw(j, c);
    var q := j / c - i / c;
    assert j - i == q * c by { Distribute(j / c, i / c, c); }
    if q > 0 {
      MulLe(1, q, c);
      assert false;
    } else {
      MulLe(q, 0, c);
    }
  }

  /** Live indices do not alias in a ring that is large enough, so growing keeps every one of them. */
  lemma {:induction false} CopyKeeps<T>(src: Ring<T>, dst: Ring<T>, i: nat, bottom: nat, low: nat, k: nat)
    requires src.Valid() && dst.Valid() && low <= i && low <= k < bottom && bottom - low <= dst.Capacity()
    requires k < i ==> dst.Load(k) == src.Load(k)
    ensures Copy(src, dst, i, bottom).Load(k) == src.Load(k)
    decreases bottom - i
  {
    if i < bottom {
      if k < i && dst.Cell(k) == dst.Cell(i) {
        SameCell(dst, k, i);
      }
      CopyKeeps(src, dst.Store(i, src.Load(i)), i + 1, bottom, low, k);
    }
  }

  function Fresh<T>(log: nat): (r: Ring<T>)
    ensures r.Valid()
  {
    Ring(log, seq(Pow2(log), _ => None))
  }

  /** The owner's view of growth: a ring of twice the capacity with the indices from top to bottom copied. */
  function Resized<T>(ring: Ring<T>, bottom: nat, top: nat): (r: Ring<T>)
    requires ring.Valid()
    ensures r.Valid() && r.Capacity() == 2 * ring.Capacity()
  {
    Copy(ring, Fresh(ring.log + 1), top, bottom)
  }

  lemma ResizedKeeps<T>(ring: Ring<T>, bottom: nat, top: nat, k: nat)
    requires ring.Valid() && top <= k < bottom && bottom - top <= ring.Capacity()
    ensures Resized(ring, bottom, top).Load(k) == ring.Load(k)
  {
    CopyKeeps(ring, Fresh(ring.log + 1), top, bottom, top, k);
  }

  /** The buffer itself, updated in place. */
  class RingStorage<T(0)> {
    ghost const log: nat
    const mask: nat
    const data: array<Option<T>>

    ghost predicate Valid()
      reads data
    {
      mask == Pow2(log) - 1 && data.Length == Pow2(log)
    }

    ghost function Value(): (r: Ring<T>)
      requires Valid()
      reads data
      ensures r.Valid()
    {
      Ring(log, data[..])
    }

    constructor (ghost log: nat, capacity: nat)
      requires capacity == Pow2(log)
      ensures Valid() && fresh(data) && this.log == log && Value() == Fresh(log)
    {
      this.log := log;
      mask := capacity - 1;
      data := new Option<T>[capacity](_ => None);
    }

    method Store(index: nat, value: Option<T>)
      requires Valid()
      modifies data
      ensures Value() == old(Value()).Store(index, value)
    {
      assert And(index, mask) == Value().Cell(index);
      data[And(index, mask)] := value;
    }

    method Load(index: nat) returns (value: Option<T>)
      requires Valid()
      ensures value == Value().Load(index)
    {
      assert And(index, mask) == Value().Cell(index);
      value := data[And(index, mask)];
    }

    method Resize(bottom: nat, top: nat) returns (grown: RingStorage<T>)
      requires Valid() && top <= bottom
      ensures fresh(grown) && fresh(grown.data) && grown.Valid()
      ensures Value() == old(Value()) && grown.Value() == Resized(Value(), bottom, top)
    {
      grown := new RingStorage<T>(log + 1, (mask + 1) * 2);
      var i := top;
      while i != bottom
        invariant top <= i <= bottom && grown.Valid() && fresh(grown.data) && grown.log == log + 1
        invariant Value() == old(Value())
        invariant Copy(Value(), grown.Value(), i, bottom) == Resized(Value(), bottom, top)
        decreases bottom - i
      {
        var v := Load(i);
        grown.Store(i, v);
        i := i + 1;
      }
    }
  }
}
