/**
 The references an operation leaves with its caller, exactly: those the caller had, without the ones it handed in, with
 the ones that come with the result.  Copies the operation makes for itself are all gone at its return.
 */
module AtomicSharedPtrOwnership {
  import opened AtomicSharedPtr
  import opened AtomicSharedPtrSafety
  import opened AtomicSharedPtrSteps
  import opened AtomicSharedPtrTheorems

  /**
   A program that has the references `held` brings operation op to its next decision, or to its return, with what
   belongs there next to the caller's other references `base`.
   */
  ghost predicate Exact(pc: PC, held: multiset<nat>, base: multiset<nat>, op: Op) {
    match pc
    case Idle => false
    case Inc(p, next) => Exact(next, held + Refs(p), base, op)
    case Dec(p, next) => Refs(p) <= held && Exact(next, held - Refs(p), base, op)
    case Delete(next) => Exact(next, held, base, op)
    case AddExternal(next) => Exact(next, held, base, op)
    case Release(_, _, next) => Exact(next, held, base, op)
    case RemoveExternal(next) => Exact(next, held, base, op)
    case Begin(o) => o == op && held == base + Needs(op)
    case Acquire(o, _, _) => o == op && held == base + Needs(op)
    case Swap(o, _) => o == op && held == base + Needs(op)
    case Ret(o, out) => o == op && held == base + Returned(op, out)
  }

  // ---------------------------------------------------------------- the programs

  lemma {:induction false} ExactGift(pc: PC, held: multiset<nat>, base: multiset<nat>, op: Op, more: multiset<nat>)
    requires Exact(pc, held, base, op)
    ensures Exact(pc, held + more, base + more, op)
  {
    match pc
    case Inc(p, next) =>
      ExactGift(next, held + Refs(p), base, op, more);
      assert held + Refs(p) + more == held + more + Refs(p);
    case Dec(p, next) =>
      ExactGift(next, held - Refs(p), base, op, more);
      assert held - Refs(p) + more == held + more - Refs(p);
    case Delete(next) => ExactGift(next, held, base, op, more);
    case AddExternal(next) => ExactGift(next, held, base, op, more);
    case Release(_, _, next) => ExactGift(next, held, base, op, more);
    case RemoveExternal(next) => ExactGift(next, held, base, op, more);
    case Begin(_) => assert base + Needs(op) + more == base + more + Needs(op);
    case Acquire(_, _, _) => assert base + Needs(op) + more == base + more + Needs(op);
    case Swap(_, _) => assert base + Needs(op) + more == base + more + Needs(op);
    case Ret(_, out) => assert base + Returned(op, out) + more == base + more + Returned(op, out);
  }

  lemma StartExact(op: Op, held: multiset<nat>)
    requires Given(op) <= held
    ensures Exact(Start(op), held, held - Given(op), op)
  {
    var base := held - Given(op);
    assert held == base + Given(op);
    if op.Cas? && op.strong {
      var h := held + Refs(op.expected);
      Copies(op, held, base);
      assert Exact(Inc(op.desired, Begin(op)), h, base, op) by {
        assert Exact(Begin(op), h + Refs(op.desired), base, op);
      }
    }
  }

  /** The strong form starts with copies of what it was given. */
  lemma Copies(op: Op, held: multiset<nat>, base: multiset<nat>)
    requires op.Cas? && op.strong && held == base + Given(op)
    ensures held + Refs(op.expected) + Refs(op.desired) == base + Needs(op)
  {}

  /** What is still held besides the result when an attempt has been decided. */
  function Spare(op: Op): multiset<nat> {
    if op.Cas? && op.strong then Refs(op.expected) + Refs(op.desired) else multiset{}
  }

  /** The strong form goes round again with fresh copies ... */
  lemma RetryExact(op: Op, held: multiset<nat>, base: multiset<nat>)
    requires op.Cas? && op.strong && held == base + Refs(op.expected) + Spare(op)
    ensures Exact(Inc(op.desired, Begin(op)), held, base, op)
  {
    assert held + Refs(op.desired) == base + Needs(op);
    assert Exact(Begin(op), held + Refs(op.desired), base, op);
  }

  /** ... or drops the caller's. */
  lemma StrongExact(op: Op, out: Outcome, held: multiset<nat>, base: multiset<nat>)
    requires op.Cas? && op.strong && held == base + Returned(op, out) + Spare(op)
    ensures Exact(Dec(op.expected, Dec(op.desired, Ret(op, out))), held, base, op)
  {
    var h1 := held - Refs(op.expected);
    assert h1 == base + Returned(op, out) + Refs(op.desired);
    assert h1 - Refs(op.desired) == base + Returned(op, out);
    assert Exact(Ret(op, out), h1 - Refs(op.desired), base, op);
    assert Exact(Dec(op.desired, Ret(op, out)), h1, base, op);
  }

  lemma FinishExact(op: Op, out: Outcome, held: multiset<nat>, base: multiset<nat>)
    requires held == base + Returned(op, out) + Spare(op)
    ensures Exact(Finish(op, out), held, base, op)
  {
    if op.Cas? && op.strong {
      if out == Failed(op.expected) {
        RetryExact(op, held, base);
      } else {
        StrongExact(op, out, held, base);
      }
    }
  }

  lemma ReleaseExact(x: nat, val: Counted, next: PC, held: multiset<nat>, base: multiset<nat>, op: Op)
    requires Exact(next, held, base, op)
    ensures Exact(ReleaseThen(x, val, next), held, base, op)
  {}

  lemma DropExact(was: Counted, next: PC, held: multiset<nat>, base: multiset<nat>, op: Op)
    requires Refs(was.ptr) <= held && Exact(next, held - Refs(was.ptr), base, op)
    ensures Exact(DropOld(was, next), held, base, op)
  {
    if was.ptr.Null? {
      assert held - Refs(was.ptr) == held;
    } else {
      assert Exact(Dec(was.ptr, next), held, base, op);
    }
  }

  /** The arithmetic of a failed attempt. */
  lemma FailLeaves(op: Op, v: Ptr, held: multiset<nat>, base: multiset<nat>)
    requires op.Cas? && held == base + Needs(op)
    ensures Refs(op.expected) <= held + Refs(v)
    ensures Refs(op.desired) <= held + Refs(v) - Refs(op.expected)
    ensures held + Refs(v) - Refs(op.expected) - Refs(op.desired) == base + Refs(v) + Spare(op)
  {
    var e, d := Refs(op.expected), Refs(op.desired);
    assert Needs(op) == e + d + Spare(op);
    TakeBoth(base, e, d, Spare(op), Refs(v));
  }

  lemma TakeBoth(base: multiset<nat>, e: multiset<nat>, d: multiset<nat>, spare: multiset<nat>, v: multiset<nat>)
    ensures e <= base + (e + d + spare) + v && d <= base + (e + d + spare) + v - e
    ensures base + (e + d + spare) + v - e - d == base + v + spare
  {}

  lemma FailExact(op: Op, v: Ptr, val: Counted, held: multiset<nat>, base: multiset<nat>)
    requires op.Cas? && held == base + Needs(op)
    ensures Exact(Fail(op, v, val), held, base, op)
  {
    var h1 := held + Refs(v);
    var h2 := h1 - Refs(op.expected);
    var last := Dec(op.desired, Finish(op, Failed(v)));
    FailLeaves(op, v, held, base);
    FinishExact(op, Failed(v), h2 - Refs(op.desired), base);
    assert Exact(last, h2, base, op);
    ReleaseExact(op.x, val, last, h2, base, op);
    assert Exact(Dec(op.expected, ReleaseThen(op.x, val, last)), h1, base, op);
  }

  /** ... and of one that found nothing to change. */
  lemma SameLeaves(op: Op, held: multiset<nat>, base: multiset<nat>)
    requires op.Cas? && held == base + Needs(op)
    ensures Refs(op.desired) <= held && held - Refs(op.desired) == base + Refs(op.expected) + Spare(op)
  {}

  lemma GuardedExact(op: Op, val: Counted, refreshed: bool, held: multiset<nat>, base: multiset<nat>)
    requires (op.Load? || op.Cas?) && held == base + Needs(op)
    ensures Exact(Guarded(op, val, refreshed), held, base, op)
  {
    if op.Load? {
      assert held + Refs(val.ptr) == base + Returned(op, Got(val.ptr));
      ReleaseExact(op.x, val, Ret(op, Got(val.ptr)), held + Refs(val.ptr), base, op);
    } else if refreshed || val.ptr != op.expected {
      FailExact(op, val.ptr, val, held, base);
    } else if op.desired == op.expected {
      var last := Dec(op.desired, Finish(op, Swapped));
      SameLeaves(op, held, base);
      FinishExact(op, Swapped, held - Refs(op.desired), base);
      assert Exact(last, held, base, op);
      ReleaseExact(op.x, val, last, held, base, op);
    }
  }

  lemma GuardExact(op: Op, cur: Counted, refreshed: bool, held: multiset<nat>, base: multiset<nat>)
    requires (op.Load? || op.Cas?) && held == base + Needs(op)
    ensures Exact(Guard(op, cur, refreshed), held, base, op)
  {
    GuardedExact(op, cur, refreshed, held, base);
  }

  // ---------------------------------------------------------------- the steps

  /** The thread is in the call, with the caller's other references `base`. */
  ghost predicate InCall(th: Thread, base: multiset<nat>, op: Op) {
    Exact(th.pc, th.held, base, op)
  }

  lemma StoreExact(op: Op, cur: Counted, held: multiset<nat>, base: multiset<nat>)
    requires op.Store? && held == base + Needs(op)
    ensures Exact(DropOld(cur, Ret(op, Stored)), held - Refs(op.desired) + Refs(cur.ptr), base, op)
  {
    var h := held - Refs(op.desired) + Refs(cur.ptr);
    assert h - Refs(cur.ptr) == base + Returned(op, Stored);
    DropExact(cur, Ret(op, Stored), h, base, op);
  }

  lemma ExchangeExact(op: Op, cur: Counted, held: multiset<nat>, base: multiset<nat>)
    requires op.Exchange? && held == base + Needs(op)
    ensures Exact(Inc(cur.ptr, DropOld(cur, Ret(op, Got(cur.ptr)))), held - Refs(op.desired) + Refs(cur.ptr), base, op)
  {
    var h := held - Refs(op.desired) + Refs(cur.ptr) + Refs(cur.ptr);
    assert h - Refs(cur.ptr) == base + Returned(op, Got(cur.ptr));
    DropExact(cur, Ret(op, Got(cur.ptr)), h, base, op);
  }

  lemma BeginExact(s: State, t: nat, base: multiset<nat>, op: Op)
    requires t < |s.threads| && s.threads[t].pc.Begin? && RunEnabled(s, s.threads[t])
    requires InCall(s.threads[t], base, op)
    ensures InCall(StepBegin(s, t).threads[t], base, op)
  {
    var th, cur := s.threads[t], s.slots[op.x].val;
    match op
    case Store(_, _) => StoreExact(op, cur, th.held, base);
    case Exchange(_, _) => ExchangeExact(op, cur, th.held, base);
    case _ => GuardExact(op, cur, false, th.held, base);
  }

  lemma AcquireExact(th: Thread, th': Thread, cur: Counted, fails: bool, base: multiset<nat>, op: Op)
    requires th.pc.Acquire? && (op.Load? || op.Cas?) && InCall(th, base, op) && th'.held == th.held
    requires th'.pc == if !fails && cur == th.pc.val
                       then Guarded(op, cur.(access := cur.access + 1), th.pc.refreshed)
                       else Acquire(op, cur, th.pc.refreshed)
    ensures InCall(th', base, op)
  {
    if !fails && cur == th.pc.val {
      GuardedExact(op, cur.(access := cur.access + 1), th.pc.refreshed, th.held, base);
    }
  }

  lemma AcquireLeads(s: State, t: nat, fails: bool)
    requires t < |s.threads| && s.threads[t].pc.Acquire? && RunEnabled(s, s.threads[t])
    ensures var th, th' := s.threads[t], StepAcquire(s, t, fails).threads[t];
      var cur := s.slots[th.pc.op.x].val;
      && th'.held == th.held
      && th'.pc == if !fails && cur == th.pc.val
                   then Guarded(th.pc.op, cur.(access := cur.access + 1), th.pc.refreshed)
                   else Acquire(th.pc.op, cur, th.pc.refreshed)
  {}

  lemma SwappedExact(op: Op, val: Counted, held: multiset<nat>, base: multiset<nat>)
    requires op.Cas? && held == base + Needs(op)
    ensures Exact(DropOld(val, ReleaseThen(op.x, val, Finish(op, Swapped))), held - Refs(op.desired) + Refs(val.ptr),
                  base, op)
  {
    var h := held - Refs(op.desired) + Refs(val.ptr);
    SameLeaves(op, held, base);
    assert h - Refs(val.ptr) == held - Refs(op.desired);
    FinishExact(op, Swapped, h - Refs(val.ptr), base);
    ReleaseExact(op.x, val, Finish(op, Swapped), h - Refs(val.ptr), base, op);
    DropExact(val, ReleaseThen(op.x, val, Finish(op, Swapped)), h, base, op);
  }

  lemma SwapExact(s: State, t: nat, fails: bool, base: multiset<nat>, op: Op)
    requires t < |s.threads| && s.threads[t].pc.Swap? && RunEnabled(s, s.threads[t])
    requires InCall(s.threads[t], base, op)
    ensures InCall(StepSwap(s, t, fails).threads[t], base, op)
  {
    var th, cur := s.threads[t], s.slots[op.x].val;
    var val := th.pc.val;
    if !fails && cur == val {
      SwappedExact(op, val, th.held, base);
    } else if cur.ptr == val.ptr {
      FailExact(op, val.ptr, val, th.held, base);
    } else {
      GuardExact(op, cur, true, th.held, base);
      ReleaseExact(op.x, val, Guard(op, cur, true), th.held, base, op);
    }
  }

  lemma RefsAre(p: Ptr)
    ensures p.At? ==> Refs(p) == multiset{p.addr}
  {}

  lemma CounterExact(s: State, t: nat, fails: bool, base: multiset<nat>, op: Op)
    requires t < |s.threads| && RunEnabled(s, s.threads[t]) && InCall(s.threads[t], base, op)
    requires var pc := s.threads[t].pc;
      pc.Inc? || pc.Dec? || pc.Delete? || pc.AddExternal? || pc.RemoveExternal? || pc.Release?
    ensures InCall(StepRun(s, t, fails).threads[t], base, op)
  {
    var th := s.threads[t];
    match th.pc
    case Inc(p, next) =>
      RefsAre(p);
      assert p.Null? ==> th.held + Refs(p) == th.held;
    case Dec(p, next) =>
      RefsAre(p);
      assert p.Null? ==> th.held - Refs(p) == th.held;
    case _ =>
  }

  /** A step of the thread itself, other than the return. */
  lemma OwnStep(s: State, t: nat, fails: bool, base: multiset<nat>, op: Op)
    requires t < |s.threads| && RunEnabled(s, s.threads[t]) && InCall(s.threads[t], base, op)
    requires !s.threads[t].pc.Ret?
    ensures InCall(StepRun(s, t, fails).threads[t], base, op)
  {
    match s.threads[t].pc
    case Begin(_) => BeginExact(s, t, base, op);
    case Acquire(_, _, _) =>
      AcquireLeads(s, t, fails);
      AcquireExact(s.threads[t], StepAcquire(s, t, fails).threads[t], s.slots[op.x].val, fails, base, op);
    case Swap(_, _) => SwapExact(s, t, fails, base, op);
    case Idle =>
    case _ => CounterExact(s, t, fails, base, op);
  }

  /** A step of another thread, or a new one. */
  lemma OtherStep(s: State, t: nat, act: Action)
    requires t < |s.threads| && Enabled(s, act) && !s.threads[t].pc.Idle? && !(act.Run? && act.t == t)
    ensures t < |Apply(s, act).threads|
    ensures var th := Apply(s, act).threads[t];
      th == s.threads[t].(held := s.threads[t].held + Gift(act, t))
  {
    match act
    case Run(u, fails) => OtherRun(s, t, u, fails);
    case Destroy(u, x) => assert StepDestroy(s, u, x).threads[t] == s.threads[t];
    case Give(u, w, a) => GiftArrives(s, t, u, w, a);
    case _ => ClientStep(s, t, act);
  }

  lemma GiftArrives(s: State, t: nat, u: nat, w: nat, a: nat)
    requires t < |s.threads| && Enabled(s, Give(u, w, a)) && !s.threads[t].pc.Idle?
    ensures var th := Apply(s, Give(u, w, a)).threads[t];
      th == s.threads[t].(held := s.threads[t].held + Gift(Give(u, w, a), t))
  {
    assert w != t ==> s.threads[t].held + multiset{} == s.threads[t].held;
  }

  lemma ClientStep(s: State, t: nat, act: Action)
    requires t < |s.threads| && Enabled(s, act) && !s.threads[t].pc.Idle?
    requires !act.Run? && !act.Destroy? && !act.Give?
    ensures t < |Apply(s, act).threads| && Apply(s, act).threads[t] == s.threads[t]
  {}

  lemma OtherRun(s: State, t: nat, u: nat, fails: bool)
    requires t < |s.threads| && u < |s.threads| && u != t && RunEnabled(s, s.threads[u])
    ensures t < |StepRun(s, u, fails).threads| && StepRun(s, u, fails).threads[t] == s.threads[t]
  {
    match s.threads[u].pc
    case Begin(_) => assert StepBegin(s, u).threads[t] == s.threads[t];
    case Acquire(_, _, _) => assert StepAcquire(s, u, fails).threads[t] == s.threads[t];
    case Swap(_, _) => assert StepSwap(s, u, fails).threads[t] == s.threads[t];
    case Release(_, _, _) => assert StepRelease(s, u, fails).threads[t] == s.threads[t];
    case _ =>
  }

  // ---------------------------------------------------------------- whole calls

  /** What other threads hand to t. */
  function Gift(act: Action, t: nat): multiset<nat> {
    if act.Give? && act.u == t then multiset{act.a} else multiset{}
  }

  function Gifts(run: seq<Action>, t: nat): multiset<nat> {
    if run == [] then multiset{} else Gift(run[0], t) + Gifts(run[1..], t)
  }

  /** Thread t is in one call until the end of the run, and returns there. */
  ghost predicate OneCall(s: State, t: nat, run: seq<Action>)
    requires Allowed(s, run)
    decreases |run|
  {
    && t < |s.threads|
    && if run == [] then s.threads[t].pc.Idle? else !s.threads[t].pc.Idle? && OneCall(Apply(s, run[0]), t, run[1..])
  }

  /** The call has returned: its record is the last one, and the thread's references are these. */
  ghost predicate ReturnedWith(s: State, t: nat, call: nat, op: Op, base: multiset<nat>) {
    && t < |s.threads| && s.done != []
    && var c := s.done[|s.done| - 1];
       c.t == t && c.call == call && c.op == op && s.threads[t].held == base + Returned(op, c.out)
  }

  lemma Return(s: State, t: nat, base: multiset<nat>, op: Op)
    requires t < |s.threads| && s.threads[t].pc.Ret? && InCall(s.threads[t], base, op)
    ensures ReturnedWith(StepRet(s, t), t, s.threads[t].calls, op, base) && StepRet(s, t).threads[t].pc.Idle?
  {}

  lemma SameCall(s: State, t: nat, fails: bool)
    requires t < |s.threads| && RunEnabled(s, s.threads[t]) && !s.threads[t].pc.Ret?
    ensures t < |StepRun(s, t, fails).threads| && StepRun(s, t, fails).threads[t].calls == s.threads[t].calls
  {
    match s.threads[t].pc
    case Begin(_) => assert StepBegin(s, t).threads[t].calls == s.threads[t].calls;
    case Acquire(_, _, _) => assert StepAcquire(s, t, fails).threads[t].calls == s.threads[t].calls;
    case Swap(_, _) => assert StepSwap(s, t, fails).threads[t].calls == s.threads[t].calls;
    case _ =>
  }

  lemma {:induction false} CallEnds(s: State, t: nat, run: seq<Action>, base: multiset<nat>, op: Op, call: nat)
    requires Inv(s) && Allowed(s, run) && OneCall(s, t, run)
    requires if s.threads[t].pc.Idle? then ReturnedWith(s, t, call, op, base)
             else s.threads[t].calls == call && InCall(s.threads[t], base, op)
    ensures ReturnedWith(Exec(s, run), t, call, op, base + Gifts(run, t))
    decreases |run|
  {
    if run == [] {
      assert base + Gifts(run, t) == base;
    } else {
      var act, s' := run[0], Apply(s, run[0]);
      var base' := base + Gift(act, t);
      StepKeeps(s, act);
      if act.Run? && act.t == t {
        assert base' == base;
        if s.threads[t].pc.Ret? {
          Return(s, t, base, op);
        } else {
          OwnStep(s, t, act.fails, base, op);
          SameCall(s, t, act.fails);
        }
      } else {
        OtherStep(s, t, act);
        ExactGift(s.threads[t].pc, s.threads[t].held, base, op, Gift(act, t));
      }
      CallEnds(s', t, run[1..], base', op, call);
      assert base' + Gifts(run[1..], t) == base + Gifts(run, t);
    }
  }

  lemma Calls(s: State, t: nat, op: Op)
    requires Enabled(s, Call(t, op))
    ensures Apply(s, Call(t, op)).threads[t] == s.threads[t].(pc := Start(op), start := |s.hist|)
    ensures !Start(op).Idle?
  {}

  lemma FromStart(s: State, t: nat, op: Op, run: seq<Action>, base: multiset<nat>, call: nat)
    requires Inv(s) && Allowed(s, run) && OneCall(s, t, run) && s.threads[t].pc == Start(op)
    requires Given(op) <= s.threads[t].held && base == s.threads[t].held - Given(op) && s.threads[t].calls == call
    ensures ReturnedWith(Exec(s, run), t, call, op, base + Gifts(run, t))
  {
    StartExact(op, s.threads[t].held);
    CallEnds(s, t, run, base, op, call);
  }

  /**
   From a call to its return the caller's references change by exactly this: what it handed in is gone, and what others
   gave the thread meanwhile, and what comes with the result, is there.
   */
  lemma ExactOwnership(s: State, t: nat, op: Op, run: seq<Action>)
    requires Inv(s) && Bounded(s) && Enabled(s, Call(t, op))
    requires Allowed(Apply(s, Call(t, op)), run) && OneCall(Apply(s, Call(t, op)), t, run)
    ensures var s', base := Exec(Apply(s, Call(t, op)), run), s.threads[t].held - Given(op);
      ReturnedWith(s', t, s.threads[t].calls, op, base + Gifts(run, t))
  {
    var s1 := Apply(s, Call(t, op));
    StepKeeps(s, Call(t, op));
    Calls(s, t, op);
    FromStart(s1, t, op, run, s.threads[t].held - Given(op), s.threads[t].calls);
  }
}
