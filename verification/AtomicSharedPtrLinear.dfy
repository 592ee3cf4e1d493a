/**
 `atomic_shared_ptr` behaves like a single register of pointers: the history of a run, in which every operation
 has one event between its call and its return, is a legal sequential history with the same results.
 */
module AtomicSharedPtrLinear {
  import opened AtomicSharedPtr

  /** The pointer in slot x after the history h, for a sequential register. */
  function Register(h: seq<Event>, x: nat): Ptr {
    if |h| == 0 then Null
    else
      var was := Register(h[..|h| - 1], x);
      match h[|h| - 1]
      case Created(y, p) => if x == y then p else was
      case Destroyed(y) => if x == y then Null else was
      case Did(_, _, op, out) => if x == op.x then After(op, out, was) else was
  }

  function After(op: Op, out: Outcome, was: Ptr): Ptr {
    match op
    case Load(_) => was
    case Store(_, d) => d
    case Exchange(_, d) => d
    case Cas(_, _, d, _) => if out == Swapped then d else was
  }

  /**
   The sequential specification: a load and an exchange return the pointer they find; a compare-exchange
   succeeds only on `expected`, and reports the pointer it finds when it fails, which for the strong form is
   not `expected`.
   */
  predicate Answers(op: Op, out: Outcome, was: Ptr) {
    match op
    case Load(_) => out == Got(was)
    case Store(_, _) => out == Stored
    case Exchange(_, _) => out == Got(was)
    case Cas(_, e, _, strong) => (out == Swapped && was == e) || (out == Failed(was) && (strong ==> was != e))
  }

  ghost predicate Legal(h: seq<Event>) {
    h == [] ||
    var g, e := h[..|h| - 1], h[|h| - 1];
    Legal(g) && (e.Did? ==> Answers(e.op, e.out, Register(g, e.op.x)))
  }

  /** The decision or the return a program runs to. */
  function Tail(pc: PC): PC {
    match pc
    case Inc(_, n) => Tail(n)
    case Dec(_, n) => Tail(n)
    case Delete(n) => Tail(n)
    case AddExternal(n) => Tail(n)
    case RemoveExternal(n) => Tail(n)
    case Release(_, _, n) => Tail(n)
    case _ => pc
  }

  /** A call that is on its way to return `out` has its event; one still to decide has none. */
  ghost predicate OnTrack(th: Thread, t: nat, pc: PC, h: seq<Event>) {
    match Tail(pc)
    case Idle => th.lin == -1
    case Begin(_) => th.lin == -1 && th.start <= |h|
    case Acquire(_, _, _) => th.lin == -1 && th.start <= |h|
    case Swap(op, val) => th.lin == -1 && th.start <= |h| && op.Cas? && val.ptr == op.expected
    case Ret(op, out) => th.start <= th.lin < |h| && h[th.lin] == Did(t, th.calls, op, out)
    case _ => false
  }

  ghost predicate Recorded(c: Completed, h: seq<Event>) {
    c.start <= c.lin < c.end <= |h| && h[c.lin] == Did(c.t, c.call, c.op, c.out)
  }

  ghost predicate LinInv(s: State) {
    Matches(s) && Tracked(s) && Attributed(s) && Distinct(s.hist) && Remembered(s)
  }

  /** The history is legal and ends in the slots. */
  ghost predicate Matches(s: State) {
    Legal(s.hist) && forall x :: 0 <= x < |s.slots| ==> Register(s.hist, x) == s.slots[x].val.ptr
  }

  ghost predicate Tracked(s: State) {
    forall t :: 0 <= t < |s.threads| ==> OnTrack(s.threads[t], t, s.threads[t].pc, s.hist)
  }

  ghost predicate Attributed(s: State) {
    forall j :: 0 <= j < |s.hist| && s.hist[j].Did? ==> Owned(s, j)
  }

  /** No call has two events. */
  ghost predicate Distinct(h: seq<Event>) {
    forall i, j :: 0 <= i < j < |h| && h[i].Did? && h[j].Did? ==> Differ(h[i], h[j])
  }

  ghost predicate Remembered(s: State) {
    forall c :: c in s.done ==> Recorded(c, s.hist)
  }

  /** An event belongs to a call already made, and the current call knows its own. */
  ghost predicate Owned(s: State, j: nat)
    requires j < |s.hist| && s.hist[j].Did?
  {
    var e := s.hist[j];
    && e.t < |s.threads|
    && e.call <= s.threads[e.t].calls && (e.call == s.threads[e.t].calls ==> s.threads[e.t].lin == j)
  }

  ghost predicate Differ(e: Event, f: Event)
    requires e.Did? && f.Did?
  {
    e.t != f.t || e.call != f.call
  }

  /** The events of one step agree with what the step does to the slots. */
  ghost predicate Agrees(s: State, slots: seq<Slot>, t: nat, es: seq<Event>) {
    if es == [] then
      |slots| == |s.slots| && forall x :: 0 <= x < |slots| ==> slots[x].val.ptr == s.slots[x].val.ptr
    else
      && |es| == 1
      && match es[0]
         case Created(x, p) =>
           x == |s.slots| && |slots| == x + 1 && slots[x].val.ptr == p &&
           forall y :: 0 <= y < x ==> slots[y].val.ptr == s.slots[y].val.ptr
         case Destroyed(x) =>
           |slots| == |s.slots| && x < |slots| && slots[x].val.ptr == Null &&
           forall y :: 0 <= y < |slots| && y != x ==> slots[y].val.ptr == s.slots[y].val.ptr
         case Did(u, n, op, out) =>
           && u == t && t < |s.threads| && n == s.threads[t].calls && s.threads[t].lin == -1
           && |slots| == |s.slots| && op.x < |slots| && Answers(op, out, s.slots[op.x].val.ptr)
           && slots[op.x].val.ptr == After(op, out, s.slots[op.x].val.ptr)
           && forall y :: 0 <= y < |slots| && y != op.x ==> slots[y].val.ptr == s.slots[y].val.ptr
  }

  /** The general step: thread t moves on, with at most one event. */
  lemma Advance(s: State, s': State, t: nat, th: Thread, es: seq<Event>)
    requires LinInv(s) && t < |s.threads| && s'.threads == s.threads[t := th] && s'.hist == s.hist + es
    requires Agrees(s, s'.slots, t, es) && s'.done == s.done && th.calls == s.threads[t].calls
    requires th.lin == if |es| == 1 && es[0].Did? then |s.hist| else s.threads[t].lin
    requires OnTrack(th, t, th.pc, s'.hist)
    ensures LinInv(s')
  {
    LegalAppend(s, s', t, es);
    AdvanceOnTrack(s, s', t, th, es);
    AdvanceOwned(s, s', t, th, es);
    AdvanceDiffer(s, s', t, es);
    AdvanceDone(s, s', es);
  }

  lemma AdvanceDone(s: State, s': State, es: seq<Event>)
    requires Remembered(s) && s'.done == s.done && s'.hist == s.hist + es
    ensures Remembered(s')
  {
    forall c | c in s'.done ensures Recorded(c, s'.hist) {
      assert Recorded(c, s.hist);
    }
  }

  lemma AdvanceOnTrack(s: State, s': State, t: nat, th: Thread, es: seq<Event>)
    requires Tracked(s)
    requires t < |s.threads| && s'.threads == s.threads[t := th] && s'.hist == s.hist + es
    requires OnTrack(th, t, th.pc, s'.hist)
    ensures Tracked(s')
  {
    forall u | 0 <= u < |s'.threads| ensures OnTrack(s'.threads[u], u, s'.threads[u].pc, s'.hist) {
      if u != t {
        assert OnTrack(s.threads[u], u, s.threads[u].pc, s.hist);
      }
    }
  }

  lemma AdvanceOwned(s: State, s': State, t: nat, th: Thread, es: seq<Event>)
    requires Attributed(s)
    requires t < |s.threads| && s'.threads == s.threads[t := th] && s'.hist == s.hist + es
    requires Agrees(s, s'.slots, t, es) && th.calls == s.threads[t].calls
    requires th.lin == if |es| == 1 && es[0].Did? then |s.hist| else s.threads[t].lin
    ensures Attributed(s')
  {
    forall j | 0 <= j < |s'.hist| && s'.hist[j].Did? ensures Owned(s', j) {
      if j < |s.hist| {
        assert Owned(s, j);
      }
    }
  }

  lemma AdvanceDiffer(s: State, s': State, t: nat, es: seq<Event>)
    requires Attributed(s)
    requires Distinct(s.hist)
    requires s'.hist == s.hist + es && Agrees(s, s'.slots, t, es)
    ensures Distinct(s'.hist)
  {
    forall i, j | 0 <= i < j < |s'.hist| && s'.hist[i].Did? && s'.hist[j].Did?
      ensures Differ(s'.hist[i], s'.hist[j])
    {
      assert Owned(s, i);
      if j < |s.hist| {
        assert Differ(s.hist[i], s.hist[j]);
      }
    }
  }

  /** The register after one more event. */
  lemma RegisterNext(h: seq<Event>, e: Event, h': seq<Event>, x: nat)
    requires h' == h + [e]
    ensures Register(h', x) == match e
      case Created(y, p) => if x == y then p else Register(h, x)
      case Destroyed(y) => if x == y then Null else Register(h, x)
      case Did(_, _, op, out) => if x == op.x then After(op, out, Register(h, x)) else Register(h, x)
  {
    assert h'[..|h|] == h;
  }

  lemma LegalNext(h: seq<Event>, e: Event, h': seq<Event>)
    requires Legal(h) && h' == h + [e] && (e.Did? ==> Answers(e.op, e.out, Register(h, e.op.x)))
    ensures Legal(h')
  {
    assert h'[..|h|] == h;
  }

  lemma LegalAppend(s: State, s': State, t: nat, es: seq<Event>)
    requires Matches(s)
    requires s'.hist == s.hist + es && Agrees(s, s'.slots, t, es)
    ensures Matches(s')
  {
    if es == [] {
      assert s'.hist == s.hist;
    } else {
      LegalNext(s.hist, es[0], s'.hist);
      forall x | 0 <= x < |s'.slots| ensures Register(s'.hist, x) == s'.slots[x].val.ptr {
        RegisterNext(s.hist, es[0], s'.hist, x);
      }
    }
  }

  /** Every event of a legal history gives the sequential register's answer at its place. */
  lemma {:induction false} LegalAt(h: seq<Event>, i: nat)
    requires Legal(h) && i < |h| && h[i].Did?
    ensures Answers(h[i].op, h[i].out, Register(h[..i], h[i].op.x))
  {
    if i < |h| - 1 {
      LegalAt(h[..|h| - 1], i);
      assert h[..|h| - 1][..i] == h[..i];
    }
  }

  // ---------------------------------------------------------------- the programs run to their event

  lemma TailFinish(op: Op, out: Outcome)
    ensures Tail(Finish(op, out)) ==
            if op.Cas? && op.strong && out == Failed(op.expected) then Begin(op) else Ret(op, out)
  {
    if op.Cas? && op.strong && out != Failed(op.expected) {
      assert Tail(Dec(op.desired, Ret(op, out))) == Ret(op, out);
    }
  }

  lemma TailRelease(x: nat, val: Counted, next: PC)
    ensures Tail(ReleaseThen(x, val, next)) == Tail(next)
  {}

  lemma TailFail(op: Op, v: Ptr, val: Counted)
    requires op.Cas?
    ensures Tail(Fail(op, v, val)) == Tail(Finish(op, Failed(v)))
  {
    var f := Dec(op.desired, Finish(op, Failed(v)));
    TailRelease(op.x, val, f);
    assert Tail(Dec(op.expected, ReleaseThen(op.x, val, f))) == Tail(f);
  }

  lemma TailGuarded(op: Op, val: Counted, refreshed: bool)
    requires op.Load? || op.Cas?
    ensures Tail(Guarded(op, val, refreshed)) ==
            var outs := Verdict(op, val.ptr, refreshed);
            if outs == [] then Swap(op, val) else Tail(Finish(op, outs[0]))
  {
    if op.Load? {
      TailRelease(op.x, val, Ret(op, Got(val.ptr)));
    } else if refreshed || val.ptr != op.expected {
      TailFail(op, val.ptr, val);
    } else if op.desired == op.expected {
      TailRelease(op.x, val, Dec(op.desired, Finish(op, Swapped)));
    }
  }

  lemma TailDrop(was: Counted, next: PC)
    ensures Tail(DropOld(was, next)) == Tail(next)
  {
    if was.ptr.At? {
      assert Tail(Dec(was.ptr, next)) == Tail(next);
    }
  }

  // ---------------------------------------------------------------- every step

  /** Steps without an event that stay on the way to the same tail. */
  lemma Quiet(s: State, s': State, t: nat, th: Thread)
    requires LinInv(s) && t < |s.threads| && s'.threads == s.threads[t := th] && s'.hist == s.hist
    requires s'.done == s.done && Agrees(s, s'.slots, t, [])
    requires th.calls == s.threads[t].calls && th.lin == s.threads[t].lin && th.start == s.threads[t].start
    requires Tail(th.pc) == Tail(s.threads[t].pc)
    ensures LinInv(s')
  {
    assert s'.hist == s.hist + [];
    Advance(s, s', t, th, []);
  }

  lemma GuardLin(s: State, t: nat)
    requires LinInv(s) && t < |s.threads| && s.threads[t].pc.Begin? && RunEnabled(s, s.threads[t])
    requires s.threads[t].pc.op.Load? || s.threads[t].pc.op.Cas?
    ensures LinInv(StepBegin(s, t))
  {
    var th, s' := s.threads[t], StepBegin(s, t);
    var op := th.pc.op;
    var cur := s.slots[op.x].val;
    assert OnTrack(th, t, th.pc, s.hist);
    if cur.ptr.Null? {
      NullGuardLin(s, t);
    } else {
      Advance(s, s', t, s'.threads[t], []);
    }
  }

  lemma NullGuardLin(s: State, t: nat)
    requires LinInv(s) && t < |s.threads| && s.threads[t].pc.Begin? && RunEnabled(s, s.threads[t])
    requires s.threads[t].pc.op.Load? || s.threads[t].pc.op.Cas?
    requires s.slots[s.threads[t].pc.op.x].val.ptr.Null?
    ensures LinInv(StepBegin(s, t))
  {
    var th, s' := s.threads[t], StepBegin(s, t);
    var op := th.pc.op;
    assert OnTrack(th, t, th.pc, s.hist);
    TailGuarded(op, s.slots[op.x].val, false);
    var outs := Verdict(op, Null, false);
    if outs != [] { TailFinish(op, outs[0]); }
    Advance(s, s', t, s'.threads[t], Events(t, th.calls, op, outs));
  }

  lemma ExchangeLin(s: State, t: nat)
    requires LinInv(s) && t < |s.threads| && s.threads[t].pc.Begin? && RunEnabled(s, s.threads[t])
    requires s.threads[t].pc.op.Store? || s.threads[t].pc.op.Exchange?
    ensures LinInv(StepBegin(s, t))
  {
    var th, s' := s.threads[t], StepBegin(s, t);
    var op := th.pc.op;
    var cur := s.slots[op.x].val;
    var out := if op.Store? then Stored else Got(cur.ptr);
    assert OnTrack(th, t, th.pc, s.hist);
    TailDrop(cur, Ret(op, out));
    Advance(s, s', t, s'.threads[t], [Did(t, th.calls, op, out)]);
  }

  lemma AcquireTakesLin(s: State, t: nat)
    requires LinInv(s) && t < |s.threads| && s.threads[t].pc.Acquire? && RunEnabled(s, s.threads[t])
    requires s.slots[s.threads[t].pc.op.x].val == s.threads[t].pc.val
    ensures LinInv(StepAcquire(s, t, false))
  {
    var th, s' := s.threads[t], StepAcquire(s, t, false);
    var op := th.pc.op;
    var cur := s.slots[op.x].val;
    assert OnTrack(th, t, th.pc, s.hist);
    TailGuarded(op, cur.(access := cur.access + 1), th.pc.refreshed);
    var outs := Verdict(op, cur.ptr, th.pc.refreshed);
    if outs != [] { TailFinish(op, outs[0]); }
    Advance(s, s', t, s'.threads[t], Events(t, th.calls, op, outs));
  }

  lemma AcquireLin(s: State, t: nat, fails: bool)
    requires LinInv(s) && t < |s.threads| && s.threads[t].pc.Acquire? && RunEnabled(s, s.threads[t])
    ensures LinInv(StepAcquire(s, t, fails))
  {
    var th, s' := s.threads[t], StepAcquire(s, t, fails);
    if !fails && s.slots[th.pc.op.x].val == th.pc.val {
      AcquireTakesLin(s, t);
    } else {
      assert OnTrack(th, t, th.pc, s.hist);
      assert s'.hist == s.hist + [];
      Advance(s, s', t, s'.threads[t], []);
    }
  }

  lemma SwapLin(s: State, t: nat, fails: bool)
    requires LinInv(s) && t < |s.threads| && s.threads[t].pc.Swap? && RunEnabled(s, s.threads[t])
    ensures LinInv(StepSwap(s, t, fails))
  {
    var cur, val := s.slots[s.threads[t].pc.op.x].val, s.threads[t].pc.val;
    if !fails && cur == val {
      SwapDoneLin(s, t);
    } else if cur.ptr == val.ptr {
      SwapFailedLin(s, t, fails);
    } else {
      SwapChangedLin(s, t, fails);
    }
  }

  lemma SwapDoneLin(s: State, t: nat)
    requires LinInv(s) && t < |s.threads| && s.threads[t].pc.Swap? && RunEnabled(s, s.threads[t])
    requires s.slots[s.threads[t].pc.op.x].val == s.threads[t].pc.val
    ensures LinInv(StepSwap(s, t, false))
  {
    var th, s' := s.threads[t], StepSwap(s, t, false);
    var op, val := th.pc.op, th.pc.val;
    assert OnTrack(th, t, th.pc, s.hist);
    TailFinish(op, Swapped);
    TailRelease(op.x, val, Finish(op, Swapped));
    TailDrop(val, ReleaseThen(op.x, val, Finish(op, Swapped)));
    Advance(s, s', t, s'.threads[t], [Did(t, th.calls, op, Swapped)]);
  }

  /** The weak form failed although the pointer was the expected one. */
  lemma SwapFailedLin(s: State, t: nat, fails: bool)
    requires LinInv(s) && t < |s.threads| && s.threads[t].pc.Swap? && RunEnabled(s, s.threads[t])
    requires var cur := s.slots[s.threads[t].pc.op.x].val;
      cur.ptr == s.threads[t].pc.val.ptr && (fails || cur != s.threads[t].pc.val)
    ensures LinInv(StepSwap(s, t, fails))
  {
    var th, s' := s.threads[t], StepSwap(s, t, fails);
    var op, val := th.pc.op, th.pc.val;
    assert OnTrack(th, t, th.pc, s.hist);
    TailFail(op, val.ptr, val);
    TailFinish(op, Failed(val.ptr));
    Advance(s, s', t, s'.threads[t], Events(t, th.calls, op, [Failed(val.ptr)]));
  }

  /** Another pointer was found: the guard moves to it. */
  lemma SwapChangedLin(s: State, t: nat, fails: bool)
    requires LinInv(s) && t < |s.threads| && s.threads[t].pc.Swap? && RunEnabled(s, s.threads[t])
    requires s.slots[s.threads[t].pc.op.x].val.ptr != s.threads[t].pc.val.ptr
    ensures LinInv(StepSwap(s, t, fails))
  {
    var th, s' := s.threads[t], StepSwap(s, t, fails);
    var op, val := th.pc.op, th.pc.val;
    var cur := s.slots[op.x].val;
    assert OnTrack(th, t, th.pc, s.hist);
    TailRelease(op.x, val, Guard(op, cur, true));
    TailGuarded(op, cur, true);
    TailFinish(op, Failed(cur.ptr));
    Advance(s, s', t, s'.threads[t], if cur.ptr.Null? then Events(t, th.calls, op, [Failed(cur.ptr)]) else []);
  }

  lemma RetLin(s: State, t: nat)
    requires LinInv(s) && t < |s.threads| && s.threads[t].pc.Ret?
    ensures LinInv(StepRet(s, t))
  {
    var s' := StepRet(s, t);
    assert OnTrack(s.threads[t], t, s.threads[t].pc, s.hist);
    forall u | 0 <= u < |s'.threads| ensures OnTrack(s'.threads[u], u, s'.threads[u].pc, s'.hist) {
      assert OnTrack(s.threads[u], u, s.threads[u].pc, s.hist);
    }
    forall j | 0 <= j < |s'.hist| && s'.hist[j].Did? ensures Owned(s', j) {
      assert Owned(s, j);
    }
  }

  /** The operations on counter words, and giving a reservation back. */
  lemma CounterLin(s: State, t: nat, fails: bool)
    requires LinInv(s) && t < |s.threads| && RunEnabled(s, s.threads[t])
    requires var pc := s.threads[t].pc; pc.Inc? || pc.Dec? || pc.Delete? || pc.AddExternal? || pc.RemoveExternal?
    ensures LinInv(StepRun(s, t, fails))
  {
    var s' := StepRun(s, t, fails);
    if s' != s {
      Quiet(s, s', t, s'.threads[t]);
    }
  }

  lemma RunLin(s: State, t: nat, fails: bool)
    requires LinInv(s) && t < |s.threads| && RunEnabled(s, s.threads[t])
    ensures LinInv(StepRun(s, t, fails))
  {
    match s.threads[t].pc
    case Begin(op) => if op.Store? || op.Exchange? { ExchangeLin(s, t); } else { GuardLin(s, t); }
    case Acquire(_, _, _) => AcquireLin(s, t, fails);
    case Swap(_, _) => SwapLin(s, t, fails);
    case Ret(_, _) => RetLin(s, t);
    case Release(_, _, _) => Quiet(s, StepRelease(s, t, fails), t, StepRelease(s, t, fails).threads[t]);
    case Idle =>
    case _ => CounterLin(s, t, fails);
  }

  lemma TailStart(op: Op)
    ensures Tail(Start(op)) == Begin(op)
  {
    if op.Cas? && op.strong {
      assert Tail(Inc(op.desired, Begin(op))) == Begin(op);
    }
  }

  /** The client's steps other than the construction and destruction of slots. */
  lemma ClientLin(s: State, act: Action)
    requires LinInv(s) && Enabled(s, act) && !act.Run? && !act.Spawn? && !act.Create? && !act.Destroy? && !act.Give?
    ensures LinInv(Apply(s, act))
  {
    var s' := Apply(s, act);
    var t := act.t;
    if act.Call? {
      assert OnTrack(s.threads[t], t, s.threads[t].pc, s.hist);
      TailStart(act.op);
      assert s'.hist == s.hist + [];
      Advance(s, s', t, s'.threads[t], []);
    } else {
      Quiet(s, s', t, s'.threads[t]);
    }
  }

  lemma GiveLin(s: State, t: nat, u: nat, a: nat)
    requires LinInv(s) && Enabled(s, Give(t, u, a))
    ensures LinInv(Apply(s, Give(t, u, a)))
  {
    var s' := Apply(s, Give(t, u, a));
    var s1 := Put(s, t, s'.threads[t]);
    Quiet(s, s1, t, s'.threads[t]);
    Quiet(s1, s', u, s'.threads[u]);
  }

  lemma CreateLin(s: State, t: nat, p: Ptr)
    requires LinInv(s) && Enabled(s, Create(t, p))
    ensures LinInv(Apply(s, Create(t, p)))
  {
    var s' := Apply(s, Create(t, p));
    assert OnTrack(s.threads[t], t, s.threads[t].pc, s.hist);
    Advance(s, s', t, s'.threads[t], [Created(|s.slots|, p)]);
  }

  lemma DestroyLin(s: State, t: nat, x: nat)
    requires LinInv(s) && Enabled(s, Destroy(t, x))
    ensures LinInv(StepDestroy(s, t, x))
  {
    var s' := StepDestroy(s, t, x);
    assert OnTrack(s.threads[t], t, s.threads[t].pc, s.hist);
    Advance(s, s', t, s'.threads[t], [Destroyed(x)]);
  }

  lemma SpawnLin(s: State)
    requires LinInv(s)
    ensures LinInv(Apply(s, Spawn))
  {
    var s' := Apply(s, Spawn);
    forall j | 0 <= j < |s'.hist| && s'.hist[j].Did? ensures Owned(s', j) {
      assert Owned(s, j);
    }
  }

  lemma StepLin(s: State, act: Action)
    requires LinInv(s) && Enabled(s, act)
    ensures LinInv(Apply(s, act))
  {
    match act
    case Spawn => SpawnLin(s);
    case Run(t, fails) => RunLin(s, t, fails);
    case Give(t, u, a) => GiveLin(s, t, u, a);
    case Create(t, p) => CreateLin(s, t, p);
    case Destroy(t, x) => DestroyLin(s, t, x);
    case _ => ClientLin(s, act);
  }
}
