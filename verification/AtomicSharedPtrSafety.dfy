/**
 Memory safety of `atomic_shared_ptr`: no object is touched after it was deleted, none is deleted twice or
 early, and none is leaked, in every interleaving.
 */
module AtomicSharedPtrSafety {
  import opened AtomicSharedPtr

  // ---------------------------------------------------------------- claims on one object, and their sums

  /** Strong references, reservations, access counts not yet in the object's counter, duties to delete. */
  datatype Claim = Claim(strong: int, res: int, pend: int, doom: int)

  const NO_CLAIM := Claim(0, 0, 0, 0)

  function Plus(x: Claim, y: Claim): Claim {
    Claim(x.strong + y.strong, x.res + y.res, x.pend + y.pend, x.doom + y.doom)
  }

  /** A sum k of which the part `was` has become `now`. */
  function Change(k: Claim, was: Claim, now: Claim): Claim {
    Claim(k.strong - was.strong + now.strong, k.res - was.res + now.res, k.pend - was.pend + now.pend,
          k.doom - was.doom + now.doom)
  }

  function Is(p: Ptr, a: nat): int {
    if p == At(a) then 1 else 0
  }

  function ThreadClaim(th: Thread, a: nat): Claim {
    Claim(th.held[a], Is(th.res, a), if th.fold.ptr == At(a) then th.fold.access else 0, Is(th.doom, a))
  }

  function SlotClaim(sl: Slot, a: nat): Claim {
    if sl.val.ptr == At(a) then Claim(1, 0, sl.val.access, 0) else NO_CLAIM
  }

  /** The claims of the first n threads. */
  function ThreadSum(ths: seq<Thread>, n: nat, a: nat): Claim
    requires n <= |ths|
  {
    if n == 0 then NO_CLAIM else Plus(ThreadSum(ths, n - 1, a), ThreadClaim(ths[n - 1], a))
  }

  function SlotSum(sls: seq<Slot>, n: nat, a: nat): Claim
    requires n <= |sls|
  {
    if n == 0 then NO_CLAIM else Plus(SlotSum(sls, n - 1, a), SlotClaim(sls[n - 1], a))
  }

  function Total(s: State, a: nat): Claim {
    Plus(ThreadSum(s.threads, |s.threads|, a), SlotSum(s.slots, |s.slots|, a))
  }

  lemma {:induction false} ThreadSumUpdate(ths: seq<Thread>, n: nat, i: nat, th: Thread, a: nat)
    requires n <= |ths| && i < |ths|
    ensures var k := ThreadSum(ths, n, a);
      ThreadSum(ths[i := th], n, a) == if i < n then Change(k, ThreadClaim(ths[i], a), ThreadClaim(th, a)) else k
  {
    if n > 0 {
      ThreadSumUpdate(ths, n - 1, i, th, a);
    }
  }

  lemma {:induction false} SlotSumUpdate(sls: seq<Slot>, n: nat, i: nat, sl: Slot, a: nat)
    requires n <= |sls| && i < |sls|
    ensures var k := SlotSum(sls, n, a);
      SlotSum(sls[i := sl], n, a) == if i < n then Change(k, SlotClaim(sls[i], a), SlotClaim(sl, a)) else k
  {
    if n > 0 {
      SlotSumUpdate(sls, n - 1, i, sl, a);
    }
  }

  lemma {:induction false} ThreadSumPrefix(ths: seq<Thread>, n: nat, th: Thread, a: nat)
    requires n <= |ths|
    ensures ThreadSum(ths + [th], n, a) == ThreadSum(ths, n, a)
  {
    if n > 0 {
      ThreadSumPrefix(ths, n - 1, th, a);
    }
  }

  lemma {:induction false} SlotSumPrefix(sls: seq<Slot>, n: nat, sl: Slot, a: nat)
    requires n <= |sls|
    ensures SlotSum(sls + [sl], n, a) == SlotSum(sls, n, a)
  {
    if n > 0 {
      SlotSumPrefix(sls, n - 1, sl, a);
    }
  }

  ghost predicate Sound(k: Claim) {
    k.strong >= 0 && k.res >= 0 && k.doom >= 0 && (k.strong == 0 ==> k.pend == 0)
  }

  /** Every part is below the sum, and without strong references there is no unfolded access count. */
  ghost predicate Part(c: Claim, k: Claim) {
    c.strong <= k.strong && c.res <= k.res && c.doom <= k.doom
  }

  lemma {:induction false} ThreadSumBounds(ths: seq<Thread>, n: nat, i: nat, a: nat)
    requires n <= |ths| && forall t :: 0 <= t < |ths| ==> Sound(ThreadClaim(ths[t], a))
    ensures Sound(ThreadSum(ths, n, a))
    ensures i < n ==> Part(ThreadClaim(ths[i], a), ThreadSum(ths, n, a))
  {
    if n > 0 {
      ThreadSumBounds(ths, n - 1, i, a);
    }
  }

  lemma {:induction false} SlotSumBounds(sls: seq<Slot>, n: nat, i: nat, a: nat)
    requires n <= |sls|
    ensures Sound(SlotSum(sls, n, a))
    ensures i < n ==> Part(SlotClaim(sls[i], a), SlotSum(sls, n, a))
  {
    if n > 0 {
      SlotSumBounds(sls, n - 1, i, a);
    }
  }

  // ---------------------------------------------------------------- the invariant

  /**
   A thread's program never lacks the claims its instructions need.  `n` is the number of slots.  The
   recursion runs the program symbolically to its next decision.
   */
  ghost predicate Fits(pc: PC, n: nat, held: multiset<nat>, res: Ptr, fold: Counted, doom: Ptr) {
    match pc
    case Idle => res.Null? && fold == NO_FOLD && doom.Null?
    case Inc(p, next) =>
      && doom.Null? && (p.At? ==> p == res || p.addr in held)
      && Fits(next, n, held + Refs(p), res, fold, doom)
    case Dec(p, next) =>
      && doom.Null? && fold == NO_FOLD && Refs(p) <= held
      && Fits(next, n, held - Refs(p), res, fold, doom)
    case Delete(next) => doom.At? && fold == NO_FOLD && Fits(next, n, held, res, fold, Null)
    case AddExternal(next) =>
      doom.Null? && fold.ptr.At? && fold.ptr.addr in held && Fits(next, n, held, res, NO_FOLD, doom)
    case Release(x, target, next) =>
      doom.Null? && fold == NO_FOLD && res.At? && target.ptr == res && x < n && Fits(next, n, held, Null, fold, doom)
    case RemoveExternal(next) =>
      doom.Null? && fold == NO_FOLD && res.At? && Fits(next, n, held, Null, fold, doom)
    case Begin(op) => op.x < n && Needs(op) <= held && res.Null? && fold == NO_FOLD && doom.Null?
    case Acquire(op, _, _) =>
      && (op.Load? || op.Cas?)
      && op.x < n && Needs(op) <= held && res.Null? && fold == NO_FOLD && doom.Null?
    case Swap(op, val) =>
      && op.Cas? && op.x < n && Needs(op) <= held && fold == NO_FOLD && doom.Null?
      && res == val.ptr && val.ptr == op.expected && op.expected != op.desired
    case Ret(op, out) => Returned(op, out) <= held && res.Null? && fold == NO_FOLD && doom.Null?
  }

  /** The references an operation's own variables hold while it runs. */
  function Needs(op: Op): multiset<nat> {
    if op.Cas? && op.strong then Given(op) + Given(op) else Given(op)
  }

  /** The references the caller owns because of the result. */
  function Returned(op: Op, out: Outcome): multiset<nat> {
    match out
    case Got(p) => Refs(p)
    case Stored => multiset{}
    case Swapped => if op.Cas? then Refs(op.expected) else multiset{}
    case Failed(v) => Refs(v)
  }

  ghost predicate ThreadOk(th: Thread, n: nat) {
    && Fits(th.pc, n, th.held, th.res, th.fold, th.doom)
    && (th.fold.ptr.At? ==> th.fold.ptr.addr in th.held)
    && (th.fold.ptr.Null? ==> th.fold == NO_FOLD)
  }

  /**
   The conservation law of a live object with counter word c and claims k.  The object's strong count is exact; its
   external counter, the access counts of the slots holding it and the folds under way add up to the reservations
   and the debt modulo 2^32; and it is referenced, or about to be deleted by exactly one thread, or indebted.
   */
  ghost predicate Balanced(c: Counter, k: Claim) {
    && c.count == k.strong && 0 <= c.external < M && 0 <= c.debt < M
    && (c.external + k.pend - k.res - c.debt) % M == 0
    && if k.doom == 0 then k.strong + k.res > 0 || c.debt > 0
       else c.debt == 0 && k.doom == 1 && k.strong == 0 && k.res == 0
  }

  /** An address without a live object has no claims on it. */
  ghost predicate Settled(objs: map<nat, Counter>, a: nat, k: Claim) {
    if a in objs then Balanced(objs[a], k) else k.strong == 0 && k.res == 0 && k.doom == 0
  }

  ghost predicate Account(s: State, a: nat) {
    Settled(s.objs, a, Total(s, a))
  }

  ghost predicate Accounts(s: State) {
    forall a: nat :: Account(s, a)
  }

  ghost predicate Threads(s: State) {
    forall t :: 0 <= t < |s.threads| ==> ThreadOk(s.threads[t], |s.slots|)
  }

  ghost predicate Inv(s: State) {
    Accounts(s) && Threads(s)
  }

  function Debt(objs: map<nat, Counter>, a: nat): int {
    if a in objs then objs[a].debt else 0
  }

  /** The assumption on the client: no object has 2^32 live reservations, the range of its external counter. */
  ghost predicate Bounded(s: State) {
    forall a: nat :: Total(s, a).res + Debt(s.objs, a) < M
  }

  // ---------------------------------------------------------------- sums over states

  /** Only thread t's claims on address a change. */
  lemma Retotal(s: State, s': State, t: nat, th: Thread, a: nat)
    requires t < |s.threads| && s'.threads == s.threads[t := th] && s'.slots == s.slots
    ensures Total(s', a) == Change(Total(s, a), ThreadClaim(s.threads[t], a), ThreadClaim(th, a))
  {
    ThreadSumUpdate(s.threads, |s.threads|, t, th, a);
  }

  /** Thread t's claims and the value of slot x change. */
  lemma RetotalSlot(s: State, s': State, t: nat, th: Thread, x: nat, sl: Slot, a: nat)
    requires t < |s.threads| && x < |s.slots|
    requires s'.threads == s.threads[t := th] && s'.slots == s.slots[x := sl]
    ensures Total(s', a) == Change(Change(Total(s, a), ThreadClaim(s.threads[t], a), ThreadClaim(th, a)),
                                   SlotClaim(s.slots[x], a), SlotClaim(sl, a))
  {
    ThreadSumUpdate(s.threads, |s.threads|, t, th, a);
    SlotSumUpdate(s.slots, |s.slots|, x, sl, a);
  }

  lemma Bounds(s: State, t: nat, x: nat, a: nat)
    requires Threads(s)
    ensures Sound(Total(s, a))
    ensures t < |s.threads| ==> Part(ThreadClaim(s.threads[t], a), Total(s, a))
    ensures x < |s.slots| ==> Part(SlotClaim(s.slots[x], a), Total(s, a))
  {
    forall u | 0 <= u < |s.threads| ensures Sound(ThreadClaim(s.threads[u], a)) {
      assert ThreadOk(s.threads[u], |s.slots|);
    }
    ThreadSumBounds(s.threads, |s.threads|, t, a);
    SlotSumBounds(s.slots, |s.slots|, x, a);
  }

  /** A strong reference, a reservation or a duty to delete keeps the object allocated. */
  lemma Live(s: State, t: nat, a: nat)
    requires Inv(s) && t < |s.threads|
    requires var th := s.threads[t]; a in th.held || th.res == At(a) || th.doom == At(a)
    ensures a in s.objs
  {
    Bounds(s, t, 0, a);
    assert Account(s, a);
  }

  lemma {:induction false} FitsMonotone(pc: PC, n: nat, m: nat, held: multiset<nat>, more: multiset<nat>,
                                        res: Ptr, fold: Counted, doom: Ptr)
    requires Fits(pc, n, held, res, fold, doom) && n <= m && held <= more
    ensures Fits(pc, m, more, res, fold, doom)
  {
    match pc
    case Inc(p, next) => FitsMonotone(next, n, m, held + Refs(p), more + Refs(p), res, fold, doom);
    case Dec(p, next) => FitsMonotone(next, n, m, held - Refs(p), more - Refs(p), res, fold, doom);
    case Delete(next) => FitsMonotone(next, n, m, held, more, res, fold, Null);
    case AddExternal(next) => FitsMonotone(next, n, m, held, more, res, NO_FOLD, doom);
    case Release(_, _, next) => FitsMonotone(next, n, m, held, more, Null, fold, doom);
    case RemoveExternal(next) => FitsMonotone(next, n, m, held, more, Null, fold, doom);
    case _ =>
  }

  // ---------------------------------------------------------------- the programs fit their claims

  lemma FinishFits(op: Op, out: Outcome, n: nat, held: multiset<nat>)
    requires op.x < n && Returned(op, out) <= held
    requires op.Cas? && op.strong ==>
      if out == Failed(op.expected) then Refs(op.expected) + Refs(op.expected) + Refs(op.desired) <= held
      else Returned(op, out) + Refs(op.expected) + Refs(op.desired) <= held
    ensures Fits(Finish(op, out), n, held, Null, NO_FOLD, Null)
  {
    if op.Cas? && op.strong {
      if out == Failed(op.expected) {
        RetryFits(op, n, held);
      } else {
        StrongFits(op, out, n, held);
      }
    }
  }

  lemma RetryFits(op: Op, n: nat, held: multiset<nat>)
    requires op.Cas? && op.strong && op.x < n
    requires Refs(op.expected) + Refs(op.expected) + Refs(op.desired) <= held
    ensures Fits(Inc(op.desired, Begin(op)), n, held, Null, NO_FOLD, Null)
  {
    assert Needs(op) <= held + Refs(op.desired);
    assert Fits(Begin(op), n, held + Refs(op.desired), Null, NO_FOLD, Null);
  }

  lemma StrongFits(op: Op, out: Outcome, n: nat, held: multiset<nat>)
    requires op.Cas? && op.x < n && Returned(op, out) + Refs(op.expected) + Refs(op.desired) <= held
    ensures Fits(Dec(op.expected, Dec(op.desired, Ret(op, out))), n, held, Null, NO_FOLD, Null)
  {
    var h1 := held - Refs(op.expected);
    assert Returned(op, out) <= h1 - Refs(op.desired);
    assert Fits(Ret(op, out), n, h1 - Refs(op.desired), Null, NO_FOLD, Null);
    assert Fits(Dec(op.desired, Ret(op, out)), n, h1, Null, NO_FOLD, Null);
  }

  lemma ReleaseFits(x: nat, val: Counted, next: PC, n: nat, held: multiset<nat>)
    requires x < n && Fits(next, n, held, Null, NO_FOLD, Null)
    ensures Fits(ReleaseThen(x, val, next), n, held, val.ptr, NO_FOLD, Null)
  {}

  /** The references that are left for `Finish` when a weak attempt has failed. */
  lemma FailNeeds(op: Op, v: Ptr, held: multiset<nat>)
    requires op.Cas? && Needs(op) <= held
    ensures Refs(op.expected) <= held + Refs(v)
    ensures Refs(op.desired) <= held + Refs(v) - Refs(op.expected)
    ensures var h := held + Refs(v) - Refs(op.expected) - Refs(op.desired);
      if op.strong then Refs(v) + Refs(op.expected) + Refs(op.desired) <= h else Refs(v) <= h
  {}

  lemma FailFits(op: Op, v: Ptr, val: Counted, n: nat, held: multiset<nat>)
    requires op.Cas? && op.x < n && Needs(op) <= held && v == val.ptr
    ensures Fits(Fail(op, v, val), n, held, val.ptr, NO_FOLD, Null)
  {
    var h1 := held + Refs(v);
    var h2 := h1 - Refs(op.expected);
    var h3 := h2 - Refs(op.desired);
    var f := Finish(op, Failed(v));
    FailNeeds(op, v, held);
    FinishFits(op, Failed(v), n, h3);
    assert Fits(Dec(op.desired, f), n, h2, Null, NO_FOLD, Null);
    ReleaseFits(op.x, val, Dec(op.desired, f), n, h2);
    assert Fits(Dec(op.expected, ReleaseThen(op.x, val, Dec(op.desired, f))), n, h1, val.ptr, NO_FOLD, Null);
  }

  lemma GuardedFits(op: Op, val: Counted, refreshed: bool, n: nat, held: multiset<nat>)
    requires (op.Load? || op.Cas?) && op.x < n && Needs(op) <= held
    ensures Fits(Guarded(op, val, refreshed), n, held, val.ptr, NO_FOLD, Null)
  {
    if op.Load? {
      ReleaseFits(op.x, val, Ret(op, Got(val.ptr)), n, held + Refs(val.ptr));
    } else if refreshed || val.ptr != op.expected {
      FailFits(op, val.ptr, val, n, held);
    } else if op.desired == op.expected {
      FinishFits(op, Swapped, n, held - Refs(op.desired));
      ReleaseFits(op.x, val, Dec(op.desired, Finish(op, Swapped)), n, held);
    }
  }

  lemma GuardFits(op: Op, cur: Counted, refreshed: bool, n: nat, held: multiset<nat>)
    requires (op.Load? || op.Cas?) && op.x < n && Needs(op) <= held
    ensures Fits(Guard(op, cur, refreshed), n, held, Null, NO_FOLD, Null)
  {
    GuardedFits(op, cur, refreshed, n, held);
  }

  lemma DropFits(was: Counted, next: PC, n: nat, held: multiset<nat>, res: Ptr)
    requires Refs(was.ptr) <= held
    requires Fits(next, n, held - Refs(was.ptr), res, NO_FOLD, Null)
    ensures Fits(DropOld(was, next), n, held, res, if was.ptr.Null? then NO_FOLD else was, Null)
  {
    if was.ptr.At? {
      assert Fits(Dec(was.ptr, next), n, held, res, NO_FOLD, Null);
    } else {
      assert held - Refs(was.ptr) == held;
    }
  }
}
