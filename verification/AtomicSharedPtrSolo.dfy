/**
 What a thread can count on when it is left alone: its operation ends, whatever the others have left behind, and a
 compare-exchange that finds `expected` succeeds.
 */
module AtomicSharedPtrSolo {
  import opened AtomicSharedPtr
  import opened AtomicSharedPtrClients
  import opened AtomicSharedPtrLinear
  import opened AtomicSharedPtrOwnership
  import opened AtomicSharedPtrSafety
  import opened AtomicSharedPtrSlots
  import opened AtomicSharedPtrSteps
  import opened AtomicSharedPtrTheorems

  // ---------------------------------------------------------------- the measure

  /** How many decisions are ahead at most, judged by the next one. */
  function TailStage(pc: PC): nat {
    match Tail(pc)
    case Begin(_) => 4
    case Acquire(_, _, refreshed) => if refreshed then 6 else 3
    case Swap(_, _) => 7
    case _ => 0
  }

  /** A decision that is next and has seen the slot as it is is further on. */
  function Stage(pc: PC, slots: seq<Slot>): (n: nat)
    ensures n <= TailStage(pc)
  {
    match pc
    case Acquire(op, val, refreshed) =>
      TailStage(pc) - if op.x < |slots| && slots[op.x].val == val then 1 else 0
    case Swap(op, val) => if op.x < |slots| && slots[op.x].val == val then 1 else 7
    case _ => TailStage(pc)
  }

  /** The steps up to the next decision. */
  function Length(pc: PC, slots: seq<Slot>): nat {
    match pc
    case Inc(_, next) => 1 + Length(next, slots)
    case Dec(_, next) => 2 + Length(next, slots)
    case Delete(next) => 1 + Length(next, slots)
    case AddExternal(next) => 1 + Length(next, slots)
    case RemoveExternal(next) => 2 + Length(next, slots)
    case Release(x, target, next) =>
      (if x < |slots| && slots[x].val == target then 3 else 4) + Length(next, slots)
    case Ret(_, _) => 1
    case _ => 0
  }

  predicate Releases(pc: PC) {
    match pc
    case Inc(_, next) => Releases(next)
    case Dec(_, next) => Releases(next)
    case Delete(next) => Releases(next)
    case AddExternal(next) => Releases(next)
    case RemoveExternal(next) => Releases(next)
    case Release(_, _, _) => true
    case _ => false
  }

  /** A program without a reservation has no release ahead. */
  lemma {:induction false} NothingReserved(pc: PC, n: nat, held: multiset<nat>, fold: Counted, doom: Ptr)
    requires Fits(pc, n, held, Null, fold, doom)
    ensures !Releases(pc)
  {
    match pc
    case Inc(p, next) => NothingReserved(next, n, held + Refs(p), fold, doom);
    case Dec(p, next) => NothingReserved(next, n, held - Refs(p), fold, doom);
    case Delete(next) => NothingReserved(next, n, held, fold, Null);
    case AddExternal(next) => NothingReserved(next, n, held, NO_FOLD, doom);
    case _ =>
  }

  /** Then the slots do not matter. */
  lemma {:induction false} SameLength(pc: PC, slots: seq<Slot>, slots': seq<Slot>)
    requires !Releases(pc)
    ensures Length(pc, slots') == Length(pc, slots)
  {
    match pc
    case Inc(_, next) => SameLength(next, slots, slots');
    case Dec(_, next) => SameLength(next, slots, slots');
    case Delete(next) => SameLength(next, slots, slots');
    case AddExternal(next) => SameLength(next, slots, slots');
    case RemoveExternal(next) => SameLength(next, slots, slots');
    case _ =>
  }

  /** Closer to the end. */
  ghost predicate Closer(pc: PC, slots: seq<Slot>, pc': PC, slots': seq<Slot>) {
    || Stage(pc', slots') < Stage(pc, slots)
    || (Stage(pc', slots') == Stage(pc, slots) && Length(pc', slots') < Length(pc, slots))
  }

  // ---------------------------------------------------------------- the stages of the programs

  lemma FinishStage(op: Op, out: Outcome)
    ensures TailStage(Finish(op, out)) ==
            if op.Cas? && op.strong && out == Failed(op.expected) then 4 else 0
  {
    TailFinish(op, out);
  }

  lemma FailStage(op: Op, v: Ptr, val: Counted)
    requires op.Cas?
    ensures TailStage(Fail(op, v, val)) == if op.strong && v == op.expected then 4 else 0
  {
    TailFail(op, v, val);
    FinishStage(op, Failed(v));
  }

  /** Once the guard holds what the slot holds. */
  lemma GuardedStage(op: Op, val: Counted, refreshed: bool, slots: seq<Slot>)
    requires (op.Load? || op.Cas?) && op.x < |slots| && slots[op.x].val == val
    ensures Stage(Guarded(op, val, refreshed), slots) <= if refreshed then 4 else 1
  {
    TailGuarded(op, val, refreshed);
    var outs := Verdict(op, val.ptr, refreshed);
    if outs != [] {
      FinishStage(op, outs[0]);
      TailFinish(op, outs[0]);
    }
  }

  lemma GuardStage(op: Op, cur: Counted, refreshed: bool, slots: seq<Slot>)
    requires (op.Load? || op.Cas?) && op.x < |slots| && slots[op.x].val == cur
    ensures Stage(Guard(op, cur, refreshed), slots) <= if refreshed then 5 else 2
  {
    GuardedStage(op, cur, refreshed, slots);
  }

  lemma DropStage(was: Counted, next: PC)
    ensures TailStage(DropOld(was, next)) == TailStage(next)
  {
    TailDrop(was, next);
  }

  // ---------------------------------------------------------------- every step is closer

  lemma CounterCloser(s: State, t: nat)
    requires t < |s.threads| && RunEnabled(s, s.threads[t])
    requires var pc := s.threads[t].pc;
      pc.Inc? || pc.Dec? || pc.Delete? || pc.AddExternal? || pc.RemoveExternal? || pc.Ret?
    ensures var s' := StepRun(s, t, false);
      t < |s'.threads| && Closer(s.threads[t].pc, s.slots, s'.threads[t].pc, s'.slots)
  {
    var pc := s.threads[t].pc;
    var pc' := StepRun(s, t, false).threads[t].pc;
    assert pc'.Delete? ==> TailStage(pc') == TailStage(pc'.next);
  }

  lemma ReleaseCloser(s: State, t: nat)
    requires Threads(s) && t < |s.threads| && s.threads[t].pc.Release? && RunEnabled(s, s.threads[t])
    ensures var s' := StepRelease(s, t, false);
      Closer(s.threads[t].pc, s.slots, s'.threads[t].pc, s'.slots)
  {
    var th, s' := s.threads[t], StepRelease(s, t, false);
    assert ThreadOk(th, |s.slots|);
    NothingReserved(th.pc.next, |s.slots|, th.held, th.fold, th.doom);
    SameLength(th.pc.next, s.slots, s'.slots);
    assert TailStage(th.pc) == TailStage(th.pc.next);
    assert Stage(th.pc, s.slots) == TailStage(th.pc);
  }

  lemma BeginCloser(s: State, t: nat)
    requires t < |s.threads| && s.threads[t].pc.Begin? && RunEnabled(s, s.threads[t])
    ensures var s' := StepBegin(s, t);
      Closer(s.threads[t].pc, s.slots, s'.threads[t].pc, s'.slots)
  {
    var op := s.threads[t].pc.op;
    var cur := s.slots[op.x].val;
    if op.Store? || op.Exchange? {
      WriteStage(op, cur, if op.Store? then Stored else Got(cur.ptr));
      WriteLeads(s, t);
    } else {
      GuardStage(op, cur, false, s.slots);
    }
  }

  lemma WriteStage(op: Op, cur: Counted, out: Outcome)
    ensures TailStage(DropOld(cur, Ret(op, out))) == TailStage(Inc(cur.ptr, DropOld(cur, Ret(op, out)))) == 0
  {
    DropStage(cur, Ret(op, out));
  }

  lemma WriteLeads(s: State, t: nat)
    requires t < |s.threads| && s.threads[t].pc.Begin? && RunEnabled(s, s.threads[t])
    requires s.threads[t].pc.op.Store? || s.threads[t].pc.op.Exchange?
    ensures var op := s.threads[t].pc.op;
      var cur := s.slots[op.x].val;
      StepBegin(s, t).threads[t].pc == if op.Store? then DropOld(cur, Ret(op, Stored))
                                       else Inc(cur.ptr, DropOld(cur, Ret(op, Got(cur.ptr))))
  {}

  lemma AcquireCloser(s: State, t: nat)
    requires t < |s.threads| && s.threads[t].pc.Acquire? && RunEnabled(s, s.threads[t])
    ensures var s' := StepAcquire(s, t, false);
      Closer(s.threads[t].pc, s.slots, s'.threads[t].pc, s'.slots)
  {
    var pc, s' := s.threads[t].pc, StepAcquire(s, t, false);
    var op, cur := pc.op, s.slots[pc.op.x].val;
    if cur == pc.val {
      GuardedStage(op, cur.(access := cur.access + 1), pc.refreshed, s'.slots);
    }
  }

  lemma SwapCloser(s: State, t: nat)
    requires t < |s.threads| && s.threads[t].pc.Swap? && RunEnabled(s, s.threads[t])
    ensures var s' := StepSwap(s, t, false);
      Closer(s.threads[t].pc, s.slots, s'.threads[t].pc, s'.slots)
  {
    var pc := s.threads[t].pc;
    var op, val, cur := pc.op, pc.val, s.slots[pc.op.x].val;
    if cur == val {
      FinishStage(op, Swapped);
      TailRelease(op.x, val, Finish(op, Swapped));
      DropStage(cur, ReleaseThen(op.x, val, Finish(op, Swapped)));
    } else if cur.ptr == val.ptr {
      FailStage(op, val.ptr, val);
    } else {
      TailRelease(op.x, val, Guard(op, cur, true));
      TailGuarded(op, cur, true);
      var outs := Verdict(op, cur.ptr, true);
      FinishStage(op, outs[0]);
    }
  }

  lemma StepCloser(s: State, t: nat)
    requires Threads(s) && t < |s.threads| && RunEnabled(s, s.threads[t])
    ensures var s' := StepRun(s, t, false);
      t < |s'.threads| && Closer(s.threads[t].pc, s.slots, s'.threads[t].pc, s'.slots)
  {
    match s.threads[t].pc
    case Begin(_) => BeginCloser(s, t);
    case Acquire(_, _, _) => AcquireCloser(s, t);
    case Swap(_, _) => SwapCloser(s, t);
    case Release(_, _, _) => ReleaseCloser(s, t);
    case Idle =>
    case _ => CounterCloser(s, t);
  }

  // ---------------------------------------------------------------- solo runs

  ghost predicate Alone(run: seq<Action>, t: nat) {
    forall k :: 0 <= k < |run| ==> run[k] == Run(t, false)
  }

  lemma SoloStep(s: State, t: nat)
    requires Inv(s) && t < |s.threads| < M && NoDebts(s.objs) && !s.threads[t].pc.Idle?
    ensures Bounded(s) && Enabled(s, Run(t, false)) && Inv(StepRun(s, t, false))
    ensures |StepRun(s, t, false).threads| == |s.threads| && NoDebts(StepRun(s, t, false).objs)
    ensures var s' := StepRun(s, t, false); Closer(s.threads[t].pc, s.slots, s'.threads[t].pc, s'.slots)
  {
    FewThreads(s);
    NoUseAfterFree(s, t);
    StepKeeps(s, Run(t, false));
    StepCloser(s, t);
    RunDebts(s, t, false);
    RunThreadCount(s, t, false);
  }

  /** From any state: alone, and with no primitive that fails without a reason, the thread's operation ends. */
  lemma {:induction false} SoloEnds(s: State, t: nat) returns (run: seq<Action>)
    requires Inv(s) && t < |s.threads| < M && NoDebts(s.objs)
    ensures Alone(run, t) && Allowed(s, run) && OneCall(s, t, run)
    decreases Stage(s.threads[t].pc, s.slots), Length(s.threads[t].pc, s.slots), if s.threads[t].pc.Idle? then 0 else 1
  {
    if s.threads[t].pc.Idle? {
      run := [];
    } else {
      SoloStep(s, t);
      var rest := SoloEnds(StepRun(s, t, false), t);
      run := [Run(t, false)] + rest;
      Prepend(s, StepRun(s, t, false), t, rest, run);
    }
  }

  lemma Prepend(s: State, s': State, t: nat, rest: seq<Action>, run: seq<Action>)
    requires Bounded(s) && Enabled(s, Run(t, false)) && s' == Apply(s, Run(t, false)) && run == [Run(t, false)] + rest
    requires Alone(rest, t) && Allowed(s', rest) && OneCall(s', t, rest) && !s.threads[t].pc.Idle?
    ensures Alone(run, t) && Allowed(s, run) && OneCall(s, t, run)
  {
    assert run[0] == Run(t, false) && run[1..] == rest;
  }

  /** A compare-exchange that started on a slot with `expected` and was not disturbed. */
  ghost predicate Winning(th: Thread, slots: seq<Slot>, op: Op) {
    && op.Cas? && op.x < |slots|
    && var cur := slots[op.x].val;
       match Tail(th.pc)
       case Begin(o) => o == op && cur.ptr == op.expected
       case Acquire(o, val, refreshed) =>
         th.pc == Acquire(op, cur, false) && cur.ptr == op.expected
       case Swap(o, val) => th.pc == Swap(op, cur) && cur.ptr == op.expected
       case Ret(o, out) => o == op && out == Swapped && cur.ptr == op.desired
       case _ => false
  }

  lemma BeginWins(s: State, t: nat, op: Op)
    requires t < |s.threads| && s.threads[t].pc.Begin? && RunEnabled(s, s.threads[t])
    requires Winning(s.threads[t], s.slots, op)
    ensures Winning(StepBegin(s, t).threads[t], StepBegin(s, t).slots, op)
  {
    TailGuarded(op, s.slots[op.x].val, false);
    TailFinish(op, Swapped);
  }

  lemma AcquireWins(s: State, t: nat, op: Op)
    requires t < |s.threads| && s.threads[t].pc.Acquire? && RunEnabled(s, s.threads[t])
    requires Winning(s.threads[t], s.slots, op)
    ensures Winning(StepAcquire(s, t, false).threads[t], StepAcquire(s, t, false).slots, op)
  {
    var cur := s.slots[op.x].val;
    TailGuarded(op, cur.(access := cur.access + 1), false);
    TailFinish(op, Swapped);
  }

  lemma SwapWins(s: State, t: nat, op: Op)
    requires t < |s.threads| && s.threads[t].pc.Swap? && RunEnabled(s, s.threads[t])
    requires Winning(s.threads[t], s.slots, op)
    ensures Winning(StepSwap(s, t, false).threads[t], StepSwap(s, t, false).slots, op)
  {
    var cur := s.slots[op.x].val;
    TailRelease(op.x, cur, Finish(op, Swapped));
    TailDrop(cur, ReleaseThen(op.x, cur, Finish(op, Swapped)));
    TailFinish(op, Swapped);
  }

  lemma CounterWins(s: State, t: nat, op: Op)
    requires t < |s.threads| && RunEnabled(s, s.threads[t]) && Winning(s.threads[t], s.slots, op)
    requires var pc := s.threads[t].pc;
      pc.Inc? || pc.Dec? || pc.Delete? || pc.AddExternal? || pc.RemoveExternal? || pc.Release?
    requires var last := Tail(s.threads[t].pc); last.Begin? || last.Ret?
    ensures Winning(StepRun(s, t, false).threads[t], StepRun(s, t, false).slots, op)
  {}

  lemma StepWins(s: State, t: nat, op: Op)
    requires t < |s.threads| && RunEnabled(s, s.threads[t]) && Winning(s.threads[t], s.slots, op)
    requires !s.threads[t].pc.Ret?
    ensures Winning(StepRun(s, t, false).threads[t], StepRun(s, t, false).slots, op)
  {
    match s.threads[t].pc
    case Begin(_) => BeginWins(s, t, op);
    case Acquire(_, _, _) => AcquireWins(s, t, op);
    case Swap(_, _) => SwapWins(s, t, op);
    case Idle =>
    case _ => CounterWins(s, t, op);
  }

  /** The last call to return did what a successful compare-exchange does. */
  ghost predicate Succeeded(s: State, t: nat, op: Op) {
    && op.Cas? && op.x < |s.slots| && s.slots[op.x].val.ptr == op.desired
    && s.done != [] && s.done[|s.done| - 1].t == t && s.done[|s.done| - 1].op == op
    && s.done[|s.done| - 1].out == Swapped
  }

  lemma {:induction false} WinningEnds(s: State, t: nat, op: Op, run: seq<Action>)
    requires Allowed(s, run) && Alone(run, t) && OneCall(s, t, run)
    requires if s.threads[t].pc.Idle? then Succeeded(s, t, op) else Winning(s.threads[t], s.slots, op)
    ensures Succeeded(Exec(s, run), t, op)
    decreases |run|
  {
    if run != [] {
      assert run[0] == Run(t, false);
      if !s.threads[t].pc.Ret? {
        StepWins(s, t, op);
      }
      WinningEnds(Apply(s, run[0]), t, op, run[1..]);
    }
  }

  /** Alone, a compare-exchange of either form on a slot that holds `expected` puts `desired` there and says so. */
  lemma LoneCompareExchange(s: State, t: nat, op: Op, run: seq<Action>)
    requires Enabled(s, Call(t, op)) && op.Cas? && s.slots[op.x].val.ptr == op.expected
    requires var s1 := Apply(s, Call(t, op)); Allowed(s1, run) && Alone(run, t) && OneCall(s1, t, run)
    ensures Succeeded(Exec(Apply(s, Call(t, op)), run), t, op)
  {
    TailStart(op);
    WinningEnds(Apply(s, Call(t, op)), t, op, run);
  }
}
