/**
 What a slot's access count is: the guards whose reservation was taken on its present incarnation, less the
 reservations given back to it by guards of earlier ones.  So the count that the destructor drops is the number of
 such strays, negated; and there are none in a run in which no pointer is stored back to a slot while an unfinished
 operation on that slot still reserves it.
 */
module AtomicSharedPtrSlots {
  import opened AtomicSharedPtr
  import opened AtomicSharedPtrSafety

  /** The program has a reservation that it will give back to slot x. */
  predicate GuardOn(pc: PC, x: nat) {
    match pc
    case Inc(_, n) => GuardOn(n, x)
    case Dec(_, n) => GuardOn(n, x)
    case Delete(n) => GuardOn(n, x)
    case AddExternal(n) => GuardOn(n, x)
    case Release(y, _, _) => x == y
    case Swap(op, val) => op.x == x && val.ptr.At?
    case _ => false
  }

  /** ... which was taken in the given era of the slot. */
  function Present(th: Thread, x: nat, era: nat): int {
    if GuardOn(th.pc, x) && th.era == era then 1 else 0
  }

  function GuardCount(ths: seq<Thread>, n: nat, x: nat, era: nat): int
    requires n <= |ths|
  {
    if n == 0 then 0 else GuardCount(ths, n - 1, x, era) + Present(ths[n - 1], x, era)
  }

  /** The slot law. */
  ghost predicate Law(ths: seq<Thread>, x: nat, sl: Slot) {
    sl.val.ptr.At? ==> sl.val.access == GuardCount(ths, |ths|, x, sl.era) - sl.strays
  }

  /** A reservation is of the pointer of its incarnation. */
  ghost predicate Anchored(th: Thread, x: nat, sl: Slot) {
    GuardOn(th.pc, x) ==> th.era <= sl.era && (th.era == sl.era ==> sl.val.ptr == th.res)
  }

  ghost predicate AllAnchored(th: Thread, slots: seq<Slot>) {
    forall x :: 0 <= x < |slots| ==> Anchored(th, x, slots[x])
  }

  ghost predicate SlotInv(s: State) {
    && (forall t :: 0 <= t < |s.threads| ==> AllAnchored(s.threads[t], s.slots))
    && (forall x :: 0 <= x < |s.slots| ==> Law(s.threads, x, s.slots[x]))
  }

  // ---------------------------------------------------------------- counting guards

  lemma {:induction false} CountUpdate(ths: seq<Thread>, n: nat, i: nat, th: Thread, x: nat, era: nat)
    requires n <= |ths| && i < |ths|
    ensures GuardCount(ths[i := th], n, x, era) ==
            GuardCount(ths, n, x, era) + if i < n then Present(th, x, era) - Present(ths[i], x, era) else 0
  {
    if n > 0 {
      CountUpdate(ths, n - 1, i, th, x, era);
    }
  }

  lemma {:induction false} CountPrefix(ths: seq<Thread>, n: nat, th: Thread, x: nat, era: nat)
    requires n <= |ths|
    ensures GuardCount(ths + [th], n, x, era) == GuardCount(ths, n, x, era)
  {
    if n > 0 {
      CountPrefix(ths, n - 1, th, x, era);
    }
  }

  lemma {:induction false} NoGuards(ths: seq<Thread>, n: nat, x: nat, era: nat)
    requires n <= |ths| && forall t :: 0 <= t < n ==> Present(ths[t], x, era) == 0
    ensures GuardCount(ths, n, x, era) == 0
  {
    if n > 0 {
      NoGuards(ths, n - 1, x, era);
    }
  }

  // ---------------------------------------------------------------- guards of programs

  lemma {:induction false} GuardReserves(pc: PC, n: nat, held: multiset<nat>, res: Ptr, fold: Counted, doom: Ptr,
                                         x: nat)
    requires Fits(pc, n, held, res, fold, doom) && GuardOn(pc, x)
    ensures res.At? && x < n && Mentions(pc, x)
  {
    match pc
    case Inc(p, next) => GuardReserves(next, n, held + Refs(p), res, fold, doom, x);
    case Dec(p, next) => GuardReserves(next, n, held - Refs(p), res, fold, doom, x);
    case Delete(next) => GuardReserves(next, n, held, res, fold, Null, x);
    case AddExternal(next) => GuardReserves(next, n, held, res, NO_FOLD, doom, x);
    case _ =>
  }

  /** Without a reservation there is no guard. */
  lemma Unguarded(pc: PC, n: nat, held: multiset<nat>, fold: Counted, doom: Ptr, x: nat)
    requires Fits(pc, n, held, Null, fold, doom)
    ensures !GuardOn(pc, x)
  {
    if GuardOn(pc, x) {
      GuardReserves(pc, n, held, Null, fold, doom, x);
    }
  }

  lemma FinishUnguarded(op: Op, out: Outcome, x: nat)
    ensures !GuardOn(Finish(op, out), x)
  {
    if op.Cas? && op.strong {
      assert !GuardOn(Begin(op), x) && !GuardOn(Ret(op, out), x);
      assert !GuardOn(Inc(op.desired, Begin(op)), x) && !GuardOn(Dec(op.desired, Ret(op, out)), x);
    }
  }

  lemma DropGuards(was: Counted, next: PC, x: nat)
    ensures GuardOn(DropOld(was, next), x) == GuardOn(next, x)
  {
    assert GuardOn(Dec(was.ptr, next), x) == GuardOn(next, x);
  }

  lemma FailGuards(op: Op, v: Ptr, val: Counted, x: nat)
    requires op.Cas?
    ensures GuardOn(Fail(op, v, val), x) <==> op.x == x && val.ptr.At?
  {
    var last := Dec(op.desired, Finish(op, Failed(v)));
    FinishUnguarded(op, Failed(v), x);
    var back := ReleaseThen(op.x, val, last);
    assert GuardOn(back, x) <==> op.x == x && val.ptr.At?;
    assert GuardOn(Dec(op.expected, back), x) == GuardOn(back, x);
  }

  lemma GuardedGuards(op: Op, val: Counted, refreshed: bool, x: nat)
    requires op.Load? || op.Cas?
    ensures GuardOn(Guarded(op, val, refreshed), x) <==> op.x == x && val.ptr.At?
  {
    if op.Load? {
      var back := ReleaseThen(op.x, val, Ret(op, Got(val.ptr)));
      assert GuardOn(back, x) <==> op.x == x && val.ptr.At?;
    } else {
      FailGuards(op, val.ptr, val, x);
      FinishUnguarded(op, Swapped, x);
      assert !GuardOn(Dec(op.desired, Finish(op, Swapped)), x);
    }
  }

  lemma GuardGuards(op: Op, cur: Counted, refreshed: bool, x: nat)
    requires op.Load? || op.Cas?
    ensures !GuardOn(Guard(op, cur, refreshed), x)
  {
    GuardedGuards(op, cur, refreshed, x);
  }

  lemma StartUnguarded(op: Op, x: nat)
    ensures !GuardOn(Start(op), x)
  {
    assert op.Cas? ==> !GuardOn(Inc(op.desired, Begin(op)), x);
  }

  // ---------------------------------------------------------------- kinds of steps

  /** No guard of thread t appears or goes. */
  ghost predicate SameGuards(was: Thread, th: Thread) {
    (forall x: nat :: GuardOn(th.pc, x) == GuardOn(was.pc, x)) && th.era == was.era && th.res == was.res
  }

  /** Slots stay, and thread t's present guards too. */
  lemma GuardsKeep(s: State, s': State, t: nat, th: Thread)
    requires SlotInv(s) && t < |s.threads| && s'.threads == s.threads[t := th] && s'.slots == s.slots
    requires AllAnchored(th, s.slots)
    requires forall x :: 0 <= x < |s.slots| ==>
      Present(th, x, s.slots[x].era) == Present(s.threads[t], x, s.slots[x].era)
    ensures SlotInv(s')
  {
    forall x | 0 <= x < |s.slots| ensures Law(s'.threads, x, s.slots[x]) {
      assert Law(s.threads, x, s.slots[x]);
      CountUpdate(s.threads, |s.threads|, t, th, x, s.slots[x].era);
    }
  }

  lemma QuietKeeps(s: State, s': State, t: nat, th: Thread)
    requires SlotInv(s) && t < |s.threads| && s'.threads == s.threads[t := th] && s'.slots == s.slots
    requires SameGuards(s.threads[t], th)
    ensures SlotInv(s')
  {
    forall x | 0 <= x < |s.slots|
      ensures Anchored(th, x, s.slots[x])
      ensures Present(th, x, s.slots[x].era) == Present(s.threads[t], x, s.slots[x].era)
    {
      assert Anchored(s.threads[t], x, s.slots[x]);
    }
    GuardsKeep(s, s', t, th);
  }

  /** A guard that is gone, or one that the slot no longer knows, is dropped. */
  lemma StaleKeeps(s: State, s': State, t: nat, th: Thread)
    requires SlotInv(s) && t < |s.threads| && s'.threads == s.threads[t := th] && s'.slots == s.slots
    requires forall x: nat :: !GuardOn(th.pc, x)
    requires forall x :: 0 <= x < |s.slots| ==> Present(s.threads[t], x, s.slots[x].era) == 0
    ensures SlotInv(s')
  {
    forall x | 0 <= x < |s.slots| ensures Anchored(th, x, s.slots[x]) {}
    GuardsKeep(s, s', t, th);
  }

  /** What a step that changes slot x and thread t owes the law. */
  ghost predicate Accounted(was: Thread, th: Thread, x: nat, sl: Slot, sl': Slot) {
    if sl'.era == sl.era then
      && sl'.val.ptr == sl.val.ptr
      && (sl.val.ptr.At? ==>
            sl'.val.access + sl'.strays - Present(th, x, sl.era) == sl.val.access + sl.strays - Present(was, x, sl.era))
    else
      sl'.era == sl.era + 1 && sl'.val.access == 0 && sl'.strays == 0
  }

  lemma SlotKeeps(s: State, s': State, t: nat, th: Thread, x: nat, sl: Slot)
    requires SlotInv(s) && t < |s.threads| && x < |s.slots|
    requires s'.threads == s.threads[t := th] && s'.slots == s.slots[x := sl]
    requires Accounted(s.threads[t], th, x, s.slots[x], sl)
    requires forall y: nat :: y != x ==> !GuardOn(th.pc, y) && !GuardOn(s.threads[t].pc, y)
    requires GuardOn(th.pc, x) ==> th.era <= s.slots[x].era && (th.era == sl.era ==> sl.val.ptr == th.res)
    ensures SlotInv(s')
  {
    forall u | 0 <= u < |s'.threads| ensures AllAnchored(s'.threads[u], s'.slots) {
      forall y | 0 <= y < |s'.slots| ensures Anchored(s'.threads[u], y, s'.slots[y]) {
        assert Anchored(s.threads[u], y, s.slots[y]) by { assert AllAnchored(s.threads[u], s.slots); }
      }
    }
    forall y | 0 <= y < |s'.slots| ensures Law(s'.threads, y, s'.slots[y]) {
      assert Law(s.threads, y, s.slots[y]);
      CountUpdate(s.threads, |s.threads|, t, th, y, s'.slots[y].era);
      if y == x && sl.era != s.slots[x].era {
        FreshSlot(s, t, th, x, sl);
      }
    }
  }

  /** A new incarnation has no guards. */
  lemma FreshSlot(s: State, t: nat, th: Thread, x: nat, sl: Slot)
    requires SlotInv(s) && t < |s.threads| && x < |s.slots| && sl.era == s.slots[x].era + 1
    requires GuardOn(th.pc, x) ==> th.era <= s.slots[x].era
    ensures GuardCount(s.threads[t := th], |s.threads|, x, sl.era) == 0
  {
    var ths := s.threads[t := th];
    forall u | 0 <= u < |ths| ensures Present(ths[u], x, sl.era) == 0 {
      assert Anchored(s.threads[u], x, s.slots[x]) by { assert AllAnchored(s.threads[u], s.slots); }
    }
    NoGuards(ths, |ths|, x, sl.era);
  }

  // ---------------------------------------------------------------- every step

  lemma ReleaseLaw(s: State, t: nat, fails: bool)
    requires Threads(s) && SlotInv(s) && t < |s.threads| && s.threads[t].pc.Release? && RunEnabled(s, s.threads[t])
    ensures SlotInv(StepRelease(s, t, fails))
  {
    var th, s' := s.threads[t], StepRelease(s, t, fails);
    var x, th' := th.pc.x, s'.threads[t];
    var sl := s.slots[x];
    assert ThreadOk(th, |s.slots|);
    assert Anchored(th, x, sl) by { assert AllAnchored(th, s.slots); }
    forall y: nat ensures !GuardOn(th.pc.next, y) {
      Unguarded(th.pc.next, |s.slots|, th.held, th.fold, th.doom, y);
    }
    if !fails && sl.val == th.pc.target {
      SlotKeeps(s, s', t, th', x, GivenBack(sl, th.era));
    } else if sl.val.ptr == th.res {
      QuietKeeps(s, s', t, th');
    } else {
      StaleKeeps(s, s', t, th');
    }
  }

  lemma ExchangeLaw(s: State, t: nat)
    requires SlotInv(s) && t < |s.threads| && s.threads[t].pc.Begin? && RunEnabled(s, s.threads[t])
    requires s.threads[t].pc.op.Store? || s.threads[t].pc.op.Exchange?
    ensures SlotInv(StepBegin(s, t))
  {
    var th, s' := s.threads[t], StepBegin(s, t);
    var op := th.pc.op;
    var cur := s.slots[op.x].val;
    var out := if op.Store? then Stored else Got(cur.ptr);
    forall y: nat ensures !GuardOn(s'.threads[t].pc, y) {
      DropGuards(cur, Ret(op, out), y);
    }
    SlotKeeps(s, s', t, s'.threads[t], op.x, Written(s.slots[op.x], op.desired));
  }

  lemma GuardLaw(s: State, t: nat)
    requires SlotInv(s) && t < |s.threads| && s.threads[t].pc.Begin? && RunEnabled(s, s.threads[t])
    requires s.threads[t].pc.op.Load? || s.threads[t].pc.op.Cas?
    ensures SlotInv(StepBegin(s, t))
  {
    var th, s' := s.threads[t], StepBegin(s, t);
    var op := th.pc.op;
    forall y: nat ensures !GuardOn(s'.threads[t].pc, y) {
      GuardGuards(op, s.slots[op.x].val, false, y);
    }
    QuietKeeps(s, s', t, s'.threads[t]);
  }

  lemma AcquireTakesLaw(s: State, t: nat)
    requires SlotInv(s) && t < |s.threads| && s.threads[t].pc.Acquire? && RunEnabled(s, s.threads[t])
    requires s.slots[s.threads[t].pc.op.x].val == s.threads[t].pc.val
    ensures SlotInv(StepAcquire(s, t, false))
  {
    var th, s' := s.threads[t], StepAcquire(s, t, false);
    var op, th' := th.pc.op, s'.threads[t];
    var sl := s.slots[op.x];
    forall y: nat ensures GuardOn(th'.pc, y) <==> op.x == y && sl.val.ptr.At? {
      GuardedGuards(op, Reserved(sl).val, th.pc.refreshed, y);
    }
    assert s'.slots == s.slots[op.x := Reserved(sl)];
    SlotKeeps(s, s', t, th', op.x, Reserved(sl));
  }

  lemma AcquireLaw(s: State, t: nat, fails: bool)
    requires SlotInv(s) && t < |s.threads| && s.threads[t].pc.Acquire? && RunEnabled(s, s.threads[t])
    ensures SlotInv(StepAcquire(s, t, fails))
  {
    var th := s.threads[t];
    if !fails && s.slots[th.pc.op.x].val == th.pc.val {
      AcquireTakesLaw(s, t);
    } else {
      QuietKeeps(s, StepAcquire(s, t, fails), t, StepAcquire(s, t, fails).threads[t]);
    }
  }

  lemma SwapTakesLaw(s: State, t: nat)
    requires SlotInv(s) && t < |s.threads| && s.threads[t].pc.Swap? && RunEnabled(s, s.threads[t])
    requires s.slots[s.threads[t].pc.op.x].val == s.threads[t].pc.val
    ensures SlotInv(StepSwap(s, t, false))
  {
    var th, s' := s.threads[t], StepSwap(s, t, false);
    var op, val, th' := th.pc.op, th.pc.val, s'.threads[t];
    var sl := s.slots[op.x];
    assert Anchored(th, op.x, sl) by { assert AllAnchored(th, s.slots); }
    forall y: nat ensures GuardOn(th'.pc, y) == GuardOn(th.pc, y) {
      FinishUnguarded(op, Swapped, y);
      DropGuards(val, ReleaseThen(op.x, val, Finish(op, Swapped)), y);
    }
    assert s'.slots == s.slots[op.x := Written(sl, op.desired)];
    SlotKeeps(s, s', t, th', op.x, Written(sl, op.desired));
  }

  lemma SwapLaw(s: State, t: nat, fails: bool)
    requires SlotInv(s) && t < |s.threads| && s.threads[t].pc.Swap? && RunEnabled(s, s.threads[t])
    ensures SlotInv(StepSwap(s, t, fails))
  {
    var th := s.threads[t];
    var op, val, cur := th.pc.op, th.pc.val, s.slots[th.pc.op.x].val;
    if !fails && cur == val {
      SwapTakesLaw(s, t);
    } else {
      var s' := StepSwap(s, t, fails);
      forall y: nat ensures GuardOn(s'.threads[t].pc, y) == GuardOn(th.pc, y) {
        FailGuards(op, val.ptr, val, y);
        GuardGuards(op, cur, true, y);
      }
      QuietKeeps(s, s', t, s'.threads[t]);
    }
  }

  lemma CounterLaw(s: State, t: nat, fails: bool)
    requires Threads(s) && SlotInv(s) && t < |s.threads| && RunEnabled(s, s.threads[t])
    requires var pc := s.threads[t].pc; pc.Inc? || pc.Dec? || pc.Delete? || pc.AddExternal? || pc.Ret?
    ensures SlotInv(StepRun(s, t, fails))
  {
    var s' := StepRun(s, t, fails);
    if s' != s {
      QuietKeeps(s, s', t, s'.threads[t]);
    }
  }

  lemma RemoveExternalLaw(s: State, t: nat)
    requires Threads(s) && SlotInv(s) && t < |s.threads| && s.threads[t].pc.RemoveExternal?
    requires RunEnabled(s, s.threads[t])
    ensures SlotInv(StepRemoveExternal(s, t))
  {
    var th, s' := s.threads[t], StepRemoveExternal(s, t);
    assert ThreadOk(th, |s.slots|);
    forall y: nat ensures !GuardOn(th.pc.next, y) {
      Unguarded(th.pc.next, |s.slots|, th.held, th.fold, th.doom, y);
    }
    StaleKeeps(s, s', t, s'.threads[t]);
  }

  lemma RunLaw(s: State, t: nat, fails: bool)
    requires Threads(s) && SlotInv(s) && t < |s.threads| && RunEnabled(s, s.threads[t])
    ensures SlotInv(StepRun(s, t, fails))
  {
    match s.threads[t].pc
    case Begin(op) => if op.Store? || op.Exchange? { ExchangeLaw(s, t); } else { GuardLaw(s, t); }
    case Acquire(_, _, _) => AcquireLaw(s, t, fails);
    case Swap(_, _) => SwapLaw(s, t, fails);
    case Release(_, _, _) => ReleaseLaw(s, t, fails);
    case RemoveExternal(_) => if !fails { RemoveExternalLaw(s, t); }
    case Idle =>
    case _ => CounterLaw(s, t, fails);
  }

  lemma CreateLaw(s: State, t: nat, p: Ptr)
    requires Threads(s) && SlotInv(s) && Enabled(s, Create(t, p))
    ensures SlotInv(Apply(s, Create(t, p)))
  {
    var s', n := Apply(s, Create(t, p)), |s.slots|;
    forall u | 0 <= u < |s'.threads|
      ensures AllAnchored(s'.threads[u], s'.slots) && !GuardOn(s'.threads[u].pc, n)
    {
      var th := s.threads[u];
      assert ThreadOk(th, n) && AllAnchored(th, s.slots);
      if GuardOn(th.pc, n) {
        GuardReserves(th.pc, n, th.held, th.res, th.fold, th.doom, n);
      }
      forall x | 0 <= x <= n ensures Anchored(s'.threads[u], x, s'.slots[x]) {
        assert x < n ==> Anchored(th, x, s.slots[x]);
      }
    }
    forall x | 0 <= x <= n ensures Law(s'.threads, x, s'.slots[x]) {
      if x < n {
        assert Law(s.threads, x, s.slots[x]);
        CountUpdate(s.threads, |s.threads|, t, s'.threads[t], x, s.slots[x].era);
      } else {
        NoGuards(s'.threads, |s'.threads|, n, 0);
      }
    }
  }

  lemma DestroyLaw(s: State, t: nat, x: nat)
    requires SlotInv(s) && Enabled(s, Destroy(t, x))
    ensures SlotInv(StepDestroy(s, t, x))
  {
    var s', sl := StepDestroy(s, t, x), s.slots[x];
    SlotKeeps(s, s', t, s'.threads[t], x, Slot(NO_FOLD, false, sl.era + 1, 0));
  }

  lemma SpawnLaw(s: State)
    requires SlotInv(s)
    ensures SlotInv(Apply(s, Spawn))
  {
    forall x | 0 <= x < |s.slots| ensures Law(s.threads + [NEW_THREAD], x, s.slots[x]) {
      assert Law(s.threads, x, s.slots[x]);
      CountPrefix(s.threads, |s.threads|, NEW_THREAD, x, s.slots[x].era);
    }
  }

  lemma GiveLaw(s: State, t: nat, u: nat, a: nat)
    requires SlotInv(s) && Enabled(s, Give(t, u, a))
    ensures SlotInv(Apply(s, Give(t, u, a)))
  {
    var s' := Apply(s, Give(t, u, a));
    var s1 := Put(s, t, s'.threads[t]);
    QuietKeeps(s, s1, t, s'.threads[t]);
    QuietKeeps(s1, s', u, s'.threads[u]);
  }

  /** The slot law is kept by every step. */
  lemma StepLaw(s: State, act: Action)
    requires Threads(s) && SlotInv(s) && Enabled(s, act)
    ensures SlotInv(Apply(s, act))
  {
    match act
    case Spawn => SpawnLaw(s);
    case Run(t, fails) => RunLaw(s, t, fails);
    case Give(t, u, a) => GiveLaw(s, t, u, a);
    case Create(t, p) => CreateLaw(s, t, p);
    case Destroy(t, x) => DestroyLaw(s, t, x);
    case Call(t, op) =>
      forall y: nat ensures !GuardOn(Start(op), y) { StartUnguarded(op, y); }
      QuietKeeps(s, Apply(s, act), t, Apply(s, act).threads[t]);
    case _ => QuietKeeps(s, Apply(s, act), act.t, Apply(s, act).threads[act.t]);
  }

  /** When a slot that holds an object may be destroyed its access count is the number of strays, negated. */
  lemma CountAtDestruction(s: State, t: nat, x: nat)
    requires Threads(s) && SlotInv(s) && Enabled(s, Destroy(t, x)) && s.slots[x].val.ptr.At?
    ensures s.slots[x].val.access + s.slots[x].strays == 0
  {
    forall u | 0 <= u < |s.threads| ensures Present(s.threads[u], x, s.slots[x].era) == 0 {
      var th := s.threads[u];
      assert ThreadOk(th, |s.slots|);
      if GuardOn(th.pc, x) {
        GuardReserves(th.pc, |s.slots|, th.held, th.res, th.fold, th.doom, x);
      }
    }
    NoGuards(s.threads, |s.threads|, x, s.slots[x].era);
    assert Law(s.threads, x, s.slots[x]);
  }

  // ---------------------------------------------------------------- runs without strays

  /** The step puts a pointer into a slot while an operation on that slot still reserves it. */
  ghost predicate StoresBack(s: State, act: Action) {
    && act.Run? && act.t < |s.threads|
    && var pc := s.threads[act.t].pc;
    && match pc
       case Begin(op) => (op.Store? || op.Exchange?) && op.desired.At? && Reserves(s, op.x, op.desired)
       case Swap(op, val) =>
         op.Cas? && op.x < |s.slots| && !act.fails && s.slots[op.x].val == val && Reserves(s, op.x, op.desired)
       case _ => false
  }

  ghost predicate Reserves(s: State, x: nat, p: Ptr) {
    exists u :: 0 <= u < |s.threads| && GuardOn(s.threads[u].pc, x) && s.threads[u].res == p
  }

  /** A reservation taken on an earlier incarnation is not of the pointer the slot holds now. */
  ghost predicate Estranged(th: Thread, x: nat, sl: Slot) {
    GuardOn(th.pc, x) && th.era != sl.era ==> th.res != sl.val.ptr
  }

  ghost predicate AllEstranged(th: Thread, slots: seq<Slot>) {
    forall x :: 0 <= x < |slots| ==> Estranged(th, x, slots[x])
  }

  ghost predicate NoStrays(s: State) {
    && (forall t :: 0 <= t < |s.threads| ==> AllEstranged(s.threads[t], s.slots))
    && (forall x :: 0 <= x < |s.slots| ==> s.slots[x].strays == 0)
  }

  ghost predicate NoDebts(objs: map<nat, Counter>) {
    forall a :: a in objs ==> objs[a].debt == 0
  }

  /** No new guards, and the slots stay. */
  lemma QuietStrays(s: State, s': State, t: nat, th: Thread)
    requires NoStrays(s) && t < |s.threads| && s'.threads == s.threads[t := th] && s'.slots == s.slots
    requires forall x: nat :: GuardOn(th.pc, x) ==>
      GuardOn(s.threads[t].pc, x) && th.era == s.threads[t].era && th.res == s.threads[t].res
    ensures NoStrays(s')
  {
    forall x | 0 <= x < |s.slots| ensures Estranged(th, x, s.slots[x]) {
      assert AllEstranged(s.threads[t], s.slots);
      assert Estranged(s.threads[t], x, s.slots[x]);
    }
  }

  /** Thread t's only guard is on slot x, which stays the same incarnation or gets a pointer that nobody reserves. */
  lemma SlotStrays(s: State, s': State, t: nat, th: Thread, x: nat, sl: Slot)
    requires NoStrays(s) && Threads(s) && t < |s.threads| && x < |s.slots|
    requires s'.threads == s.threads[t := th] && s'.slots == s.slots[x := sl] && sl.strays == 0
    requires if sl.era == s.slots[x].era then sl.val.ptr == s.slots[x].val.ptr else !Reserves(s, x, sl.val.ptr)
    requires forall y: nat :: GuardOn(th.pc, y) ==>
      y == x && (th.era == sl.era ||
                 (GuardOn(s.threads[t].pc, x) && th.res == s.threads[t].res && sl.era != s.slots[x].era))
    ensures NoStrays(s')
  {
    forall u | 0 <= u < |s'.threads| ensures AllEstranged(s'.threads[u], s'.slots) {
      forall y | 0 <= y < |s'.slots| ensures Estranged(s'.threads[u], y, s'.slots[y]) {
        assert Estranged(s.threads[u], y, s.slots[y]) by { assert AllEstranged(s.threads[u], s.slots); }
      }
    }
  }

  lemma NullUnreserved(s: State, x: nat)
    requires Threads(s)
    ensures !Reserves(s, x, Null)
  {
    forall u | 0 <= u < |s.threads| && GuardOn(s.threads[u].pc, x) ensures s.threads[u].res.At? {
      var th := s.threads[u];
      assert ThreadOk(th, |s.slots|);
      GuardReserves(th.pc, |s.slots|, th.held, th.res, th.fold, th.doom, x);
    }
  }

  lemma ReleaseStrays(s: State, t: nat, fails: bool)
    requires Threads(s) && NoStrays(s) && t < |s.threads| && s.threads[t].pc.Release? && RunEnabled(s, s.threads[t])
    ensures NoStrays(StepRelease(s, t, fails))
  {
    var th, s' := s.threads[t], StepRelease(s, t, fails);
    var x, th' := th.pc.x, s'.threads[t];
    var sl := s.slots[x];
    assert ThreadOk(th, |s.slots|);
    assert Estranged(th, x, sl) by { assert AllEstranged(th, s.slots); }
    forall y: nat ensures !GuardOn(th.pc.next, y) {
      Unguarded(th.pc.next, |s.slots|, th.held, th.fold, th.doom, y);
    }
    if !fails && sl.val == th.pc.target {
      SlotStrays(s, s', t, th', x, GivenBack(sl, th.era));
    } else {
      QuietStrays(s, s', t, th');
    }
  }

  lemma BeginStrays(s: State, t: nat)
    requires Threads(s) && NoStrays(s) && t < |s.threads| && s.threads[t].pc.Begin? && RunEnabled(s, s.threads[t])
    requires !StoresBack(s, Run(t, false))
    ensures NoStrays(StepBegin(s, t))
  {
    var th, s' := s.threads[t], StepBegin(s, t);
    var op := th.pc.op;
    var sl := s.slots[op.x];
    if op.Store? || op.Exchange? {
      var out := if op.Store? then Stored else Got(sl.val.ptr);
      forall y: nat ensures !GuardOn(s'.threads[t].pc, y) {
        DropGuards(sl.val, Ret(op, out), y);
      }
      NullUnreserved(s, op.x);
      SlotStrays(s, s', t, s'.threads[t], op.x, Written(sl, op.desired));
    } else {
      forall y: nat ensures !GuardOn(s'.threads[t].pc, y) {
        GuardGuards(op, sl.val, false, y);
      }
      QuietStrays(s, s', t, s'.threads[t]);
    }
  }

  lemma AcquireTakesStrays(s: State, t: nat)
    requires Threads(s) && NoStrays(s) && t < |s.threads| && s.threads[t].pc.Acquire? && RunEnabled(s, s.threads[t])
    requires s.slots[s.threads[t].pc.op.x].val == s.threads[t].pc.val
    ensures NoStrays(StepAcquire(s, t, false))
  {
    var th, s' := s.threads[t], StepAcquire(s, t, false);
    var op, th' := th.pc.op, s'.threads[t];
    var sl := s.slots[op.x];
    forall y: nat ensures GuardOn(th'.pc, y) <==> op.x == y && sl.val.ptr.At? {
      GuardedGuards(op, Reserved(sl).val, th.pc.refreshed, y);
    }
    assert s'.slots == s.slots[op.x := Reserved(sl)] && th'.era == sl.era;
    SlotStrays(s, s', t, th', op.x, Reserved(sl));
  }

  lemma AcquireStrays(s: State, t: nat, fails: bool)
    requires Threads(s) && NoStrays(s) && t < |s.threads| && s.threads[t].pc.Acquire? && RunEnabled(s, s.threads[t])
    ensures NoStrays(StepAcquire(s, t, fails))
  {
    var th := s.threads[t];
    if !fails && s.slots[th.pc.op.x].val == th.pc.val {
      AcquireTakesStrays(s, t);
    } else {
      QuietStrays(s, StepAcquire(s, t, fails), t, StepAcquire(s, t, fails).threads[t]);
    }
  }

  lemma SwapTakesStrays(s: State, t: nat)
    requires Threads(s) && NoStrays(s) && t < |s.threads| && s.threads[t].pc.Swap? && RunEnabled(s, s.threads[t])
    requires s.slots[s.threads[t].pc.op.x].val == s.threads[t].pc.val && !StoresBack(s, Run(t, false))
    ensures NoStrays(StepSwap(s, t, false))
  {
    var th, s' := s.threads[t], StepSwap(s, t, false);
    var op, val, th' := th.pc.op, th.pc.val, s'.threads[t];
    forall y: nat ensures GuardOn(th'.pc, y) == GuardOn(th.pc, y) {
      FinishUnguarded(op, Swapped, y);
      DropGuards(val, ReleaseThen(op.x, val, Finish(op, Swapped)), y);
    }
    SlotStrays(s, s', t, th', op.x, Written(s.slots[op.x], op.desired));
  }

  lemma SwapStrays(s: State, t: nat, fails: bool)
    requires Threads(s) && NoStrays(s) && t < |s.threads| && s.threads[t].pc.Swap? && RunEnabled(s, s.threads[t])
    requires !StoresBack(s, Run(t, fails))
    ensures NoStrays(StepSwap(s, t, fails))
  {
    var th := s.threads[t];
    var op, val, cur := th.pc.op, th.pc.val, s.slots[th.pc.op.x].val;
    if !fails && cur == val {
      SwapTakesStrays(s, t);
    } else {
      var s' := StepSwap(s, t, fails);
      forall y: nat ensures GuardOn(s'.threads[t].pc, y) == GuardOn(th.pc, y) {
        FailGuards(op, val.ptr, val, y);
        GuardGuards(op, cur, true, y);
      }
      QuietStrays(s, s', t, s'.threads[t]);
    }
  }

  lemma RunStrays(s: State, t: nat, fails: bool)
    requires Threads(s) && NoStrays(s) && t < |s.threads| && RunEnabled(s, s.threads[t])
    requires !StoresBack(s, Run(t, fails))
    ensures NoStrays(StepRun(s, t, fails))
  {
    match s.threads[t].pc
    case Begin(_) => assert StoresBack(s, Run(t, false)) == StoresBack(s, Run(t, fails)); BeginStrays(s, t);
    case Acquire(_, _, _) => AcquireStrays(s, t, fails);
    case Swap(_, _) => SwapStrays(s, t, fails);
    case Release(_, _, _) => ReleaseStrays(s, t, fails);
    case Idle =>
    case _ => CounterStrays(s, t, fails);
  }

  lemma CounterStrays(s: State, t: nat, fails: bool)
    requires Threads(s) && NoStrays(s) && t < |s.threads| && RunEnabled(s, s.threads[t])
    requires var pc := s.threads[t].pc;
      pc.Inc? || pc.Dec? || pc.Delete? || pc.AddExternal? || pc.RemoveExternal? || pc.Ret?
    ensures NoStrays(StepRun(s, t, fails))
  {
    var th, s' := s.threads[t], StepRun(s, t, fails);
    assert ThreadOk(th, |s.slots|);
    if s' != s {
      if th.pc.RemoveExternal? {
        forall y: nat ensures !GuardOn(th.pc.next, y) {
          Unguarded(th.pc.next, |s.slots|, th.held, th.fold, th.doom, y);
        }
      }
      QuietStrays(s, s', t, s'.threads[t]);
    }
  }

  lemma CreateStrays(s: State, t: nat, p: Ptr)
    requires Threads(s) && NoStrays(s) && Enabled(s, Create(t, p))
    ensures NoStrays(Apply(s, Create(t, p)))
  {
    var s', n := Apply(s, Create(t, p)), |s.slots|;
    forall u | 0 <= u < |s'.threads| ensures AllEstranged(s'.threads[u], s'.slots) {
      var th := s.threads[u];
      assert ThreadOk(th, n) && AllEstranged(th, s.slots);
      if GuardOn(th.pc, n) {
        GuardReserves(th.pc, n, th.held, th.res, th.fold, th.doom, n);
      }
      forall x | 0 <= x <= n ensures Estranged(s'.threads[u], x, s'.slots[x]) {
        assert x < n ==> Estranged(th, x, s.slots[x]);
      }
    }
  }

  lemma GiveStrays(s: State, t: nat, u: nat, a: nat)
    requires NoStrays(s) && Enabled(s, Give(t, u, a))
    ensures NoStrays(Apply(s, Give(t, u, a)))
  {
    var s' := Apply(s, Give(t, u, a));
    var s1 := Put(s, t, s'.threads[t]);
    QuietStrays(s, s1, t, s'.threads[t]);
    QuietStrays(s1, s', u, s'.threads[u]);
  }

  /** Without storing back a reserved pointer there are never strays. */
  lemma StepStrays(s: State, act: Action)
    requires Threads(s) && NoStrays(s) && Enabled(s, act) && !StoresBack(s, act)
    ensures NoStrays(Apply(s, act))
  {
    match act
    case Spawn =>
      forall x | 0 <= x < |s.slots| ensures Estranged(NEW_THREAD, x, s.slots[x]) {}
    case Run(t, fails) => RunStrays(s, t, fails);
    case Give(t, u, a) => GiveStrays(s, t, u, a);
    case Create(t, p) => CreateStrays(s, t, p);
    case Destroy(t, x) =>
      NullUnreserved(s, x);
      SlotStrays(s, StepDestroy(s, t, x), t, StepDestroy(s, t, x).threads[t], x,
                 Slot(NO_FOLD, false, s.slots[x].era + 1, 0));
    case Call(t, op) =>
      forall y: nat ensures !GuardOn(Start(op), y) { StartUnguarded(op, y); }
      QuietStrays(s, Apply(s, act), t, Apply(s, act).threads[t]);
    case _ => QuietStrays(s, Apply(s, act), act.t, Apply(s, act).threads[act.t]);
  }

  lemma RunDebts(s: State, t: nat, fails: bool)
    requires NoDebts(s.objs) && t < |s.threads| && RunEnabled(s, s.threads[t])
    ensures NoDebts(StepRun(s, t, fails).objs)
  {}

  /** ... and no debts. */
  lemma StepDebts(s: State, act: Action)
    requires Threads(s) && SlotInv(s) && NoStrays(s) && NoDebts(s.objs) && Enabled(s, act)
    ensures NoDebts(Apply(s, act).objs)
  {
    match act
    case Run(t, fails) => RunDebts(s, t, fails);
    case Destroy(t, x) => if s.slots[x].val.ptr.At? { CountAtDestruction(s, t, x); }
    case _ =>
  }

  /** In particular nothing is stored back where no other thread is in an operation on the slot. */
  lemma AloneIsSafe(s: State, t: nat, fails: bool)
    requires Threads(s) && t < |s.threads| && RunEnabled(s, s.threads[t])
    requires s.threads[t].pc.Begin? || s.threads[t].pc.Swap?
    requires forall u :: 0 <= u < |s.threads| && u != t ==> !Mentions(s.threads[u].pc, s.threads[t].pc.op.x)
    ensures !StoresBack(s, Run(t, fails))
  {
    var x := s.threads[t].pc.op.x;
    assert ThreadOk(s.threads[t], |s.slots|);
    forall u | 0 <= u < |s.threads| && GuardOn(s.threads[u].pc, x) ensures u == t {
      var th := s.threads[u];
      assert ThreadOk(th, |s.slots|);
      GuardReserves(th.pc, |s.slots|, th.held, th.res, th.fold, th.doom, x);
    }
  }
}
