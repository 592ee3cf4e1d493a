/** What the invariants of `atomic_shared_ptr` mean for every run of a client. */
module AtomicSharedPtrTheorems {
  import opened Arithmetic
  import opened AtomicSharedPtr
  import opened AtomicSharedPtrSafety
  import opened AtomicSharedPtrSlots
  import opened AtomicSharedPtrSteps
  import opened AtomicSharedPtrLinear

  /** A run the client may make: see `Bounded` for what is asked of it. */
  ghost predicate Allowed(s: State, run: seq<Action>)
    decreases |run|
  {
    run == [] || (Bounded(s) && Enabled(s, run[0]) && Allowed(Apply(s, run[0]), run[1..]))
  }

  ghost function Exec(s: State, run: seq<Action>): State
    requires Allowed(s, run)
    decreases |run|
  {
    if run == [] then s else Exec(Apply(s, run[0]), run[1..])
  }

  lemma {:induction false} RunsKeep(s: State, run: seq<Action>)
    requires Inv(s) && LinInv(s) && SlotInv(s) && Allowed(s, run)
    ensures Inv(Exec(s, run)) && LinInv(Exec(s, run)) && SlotInv(Exec(s, run))
    decreases |run|
  {
    if run != [] {
      StepKeeps(s, run[0]);
      StepLin(s, run[0]);
      StepLaw(s, run[0]);
      RunsKeep(Apply(s, run[0]), run[1..]);
    }
  }

  lemma InitialTotal(a: nat)
    ensures Account(INIT, a)
  {
    assert ThreadSum([], 0, a) == SlotSum([], 0, a) == NO_CLAIM;
    assert Settled(map[], a, NO_CLAIM);
  }

  lemma InitiallySafe()
    ensures Inv(INIT)
  {
    forall a: nat ensures Account(INIT, a) {
      InitialTotal(a);
    }
  }

  lemma InitiallyLinear()
    ensures LinInv(INIT)
  {}

  lemma InitiallyTidy()
    ensures SlotInv(INIT) && NoStrays(INIT) && NoDebts(INIT.objs)
  {}

  /** In every interleaving, ABA included, the invariants hold at the end of every run. */
  lemma AllRuns(run: seq<Action>)
    requires Allowed(INIT, run)
    ensures Inv(Exec(INIT, run)) && LinInv(Exec(INIT, run)) && SlotInv(Exec(INIT, run))
  {
    InitiallySafe();
    InitiallyLinear();
    InitiallyTidy();
    RunsKeep(INIT, run);
  }

  /** No step stores a pointer back to a slot while an unfinished operation on that slot reserves it. */
  ghost predicate Careful(s: State, run: seq<Action>)
    requires Allowed(s, run)
    decreases |run|
  {
    run == [] || (!StoresBack(s, run[0]) && Careful(Apply(s, run[0]), run[1..]))
  }

  lemma {:induction false} CarefulKeeps(s: State, run: seq<Action>)
    requires Inv(s) && SlotInv(s) && NoStrays(s) && NoDebts(s.objs) && Allowed(s, run) && Careful(s, run)
    ensures NoStrays(Exec(s, run)) && NoDebts(Exec(s, run).objs)
    decreases |run|
  {
    if run != [] {
      StepKeeps(s, run[0]);
      StepLaw(s, run[0]);
      StepStrays(s, run[0]);
      StepDebts(s, run[0]);
      CarefulKeeps(Apply(s, run[0]), run[1..]);
    }
  }

  /** After such a run no object is indebted, whatever slots were destroyed. */
  lemma CarefulRuns(run: seq<Action>)
    requires Allowed(INIT, run) && Careful(INIT, run)
    ensures NoStrays(Exec(INIT, run)) && NoDebts(Exec(INIT, run).objs)
  {
    InitiallySafe();
    InitiallyTidy();
    CarefulKeeps(INIT, run);
  }

  // ---------------------------------------------------------------- memory safety

  /** No thread's next atomic operation touches the counters of an object that was deleted. */
  lemma NoUseAfterFree(s: State, t: nat)
    requires Inv(s) && t < |s.threads| && !s.threads[t].pc.Idle?
    ensures RunEnabled(s, s.threads[t])
  {
    var th := s.threads[t];
    assert ThreadOk(th, |s.slots|);
    match th.pc
    case Inc(p, _) => if p.At? { Live(s, t, p.addr); }
    case Dec(p, _) => if p.At? { Live(s, t, p.addr); }
    case Delete(_) => Live(s, t, th.doom.addr);
    case AddExternal(_) => Live(s, t, th.fold.ptr.addr);
    case RemoveExternal(_) => Live(s, t, th.res.addr);
    case _ =>
  }

  /** A strong reference can be followed: its object is alive. */
  lemma HeldIsAlive(s: State, t: nat, a: nat)
    requires Inv(s) && t < |s.threads| && a in s.threads[t].held
    ensures a in s.objs && s.objs[a].count >= 1
  {
    Live(s, t, a);
    Bounds(s, t, 0, a);
    assert Account(s, a);
  }

  ghost predicate Unclaimed(th: Thread, a: nat) {
    a !in th.held && th.res != At(a) && th.fold.ptr != At(a)
  }

  /** The sums when an object is about to be deleted. */
  lemma DoomedTotal(s: State, t: nat, a: nat)
    requires Inv(s) && t < |s.threads| && s.threads[t].doom == At(a)
    ensures a in s.objs && Total(s, a).strong == 0 && Total(s, a).res == 0 && Total(s, a).doom == 1
  {
    Live(s, t, a);
    Bounds(s, t, 0, a);
    assert Account(s, a);
  }

  lemma NobodyClaims(s: State, u: nat, x: nat, a: nat)
    requires Threads(s) && Total(s, a).strong == 0 && Total(s, a).res == 0
    ensures u < |s.threads| ==> Unclaimed(s.threads[u], a)
    ensures x < |s.slots| ==> s.slots[x].val.ptr != At(a)
  {
    Bounds(s, u, x, a);
    if u < |s.threads| {
      assert ThreadOk(s.threads[u], |s.slots|);
    }
  }

  /**
   When a thread has decided to delete an object, no thread owns it, reserves it or is folding a count into
   it, no slot holds it, and no other thread is deleting it.
   */
  lemma DeleterIsAlone(s: State, t: nat)
    requires Inv(s) && t < |s.threads| && s.threads[t].pc.Delete?
    ensures s.threads[t].doom.At? && s.threads[t].doom.addr in s.objs
    ensures var a := s.threads[t].doom.addr;
      && (forall u :: 0 <= u < |s.threads| ==> Unclaimed(s.threads[u], a))
      && (forall u :: 0 <= u < |s.threads| && u != t ==> s.threads[u].doom != At(a))
      && (forall x :: 0 <= x < |s.slots| ==> s.slots[x].val.ptr != At(a))
  {
    assert ThreadOk(s.threads[t], |s.slots|);
    var a := s.threads[t].doom.addr;
    DoomedTotal(s, t, a);
    forall u | 0 <= u < |s.threads| ensures Unclaimed(s.threads[u], a) {
      NobodyClaims(s, u, |s.slots|, a);
    }
    forall x | 0 <= x < |s.slots| ensures s.slots[x].val.ptr != At(a) {
      NobodyClaims(s, |s.threads|, x, a);
    }
    forall u | 0 <= u < |s.threads| && u != t ensures s.threads[u].doom != At(a) {
      TwoDooms(s, t, u, a);
    }
  }

  /** Two threads under the same duty would make the sum two. */
  lemma TwoDooms(s: State, t: nat, u: nat, a: nat)
    requires Threads(s) && t < |s.threads| && u < |s.threads| && t != u && s.threads[t].doom == At(a)
    requires Total(s, a).doom <= 1
    ensures s.threads[u].doom != At(a)
  {
    var s1 := Put(s, t, NEW_THREAD);
    Retotal(s, s1, t, NEW_THREAD, a);
    assert ThreadOk(NEW_THREAD, |s.slots|);
    KeepThreads(s, s1, t, NEW_THREAD);
    Bounds(s1, u, 0, a);
    assert ThreadOk(s.threads[t], |s.slots|);
  }

  /** Memory is freed by the deleting thread alone, so an object is deleted at most once. */
  lemma FreedByDeleter(s: State, act: Action, a: nat)
    requires Inv(s) && Enabled(s, act) && a in s.objs
    requires !(act.Run? && s.threads[act.t].pc.Delete? && s.threads[act.t].doom == At(a))
    ensures a in Apply(s, act).objs
  {
    if act.Run? {
      KeptByRun(s, act.t, act.fails, a);
    }
  }

  lemma KeptByRun(s: State, t: nat, fails: bool, a: nat)
    requires t < |s.threads| && RunEnabled(s, s.threads[t]) && a in s.objs
    requires !(s.threads[t].pc.Delete? && s.threads[t].doom == At(a))
    ensures a in StepRun(s, t, fails).objs
  {}

  // ---------------------------------------------------------------- leaks

  ghost predicate AllUnclaimed(s: State, a: nat) {
    && (forall u :: 0 <= u < |s.threads| ==> Unclaimed(s.threads[u], a) && s.threads[u].doom != At(a))
    && (forall x :: 0 <= x < |s.slots| ==> s.slots[x].val.ptr != At(a))
  }

  lemma {:induction false} ThreadsNothing(ths: seq<Thread>, n: nat, a: nat)
    requires n <= |ths| && forall u :: 0 <= u < n ==> Unclaimed(ths[u], a) && ths[u].doom != At(a)
    ensures ThreadSum(ths, n, a) == NO_CLAIM
  {
    if n > 0 {
      ThreadsNothing(ths, n - 1, a);
    }
  }

  lemma {:induction false} SlotsNothing(sls: seq<Slot>, n: nat, a: nat)
    requires n <= |sls| && forall x :: 0 <= x < n ==> sls[x].val.ptr != At(a)
    ensures SlotSum(sls, n, a) == NO_CLAIM
  {
    if n > 0 {
      SlotsNothing(sls, n - 1, a);
    }
  }

  lemma NothingTotal(s: State, a: nat)
    requires AllUnclaimed(s, a)
    ensures Total(s, a) == NO_CLAIM
  {
    ThreadsNothing(s.threads, |s.threads|, a);
    SlotsNothing(s.slots, |s.slots|, a);
  }

  lemma NothingSettled(objs: map<nat, Counter>, a: nat, k: Claim)
    requires Settled(objs, a, k) && k == NO_CLAIM
    ensures a in objs <==> Debt(objs, a) > 0
  {}

  /** An object that no thread owns, reserves or deletes, and no slot holds, is leaked exactly if it is indebted. */
  lemma LeakedIffIndebted(s: State, a: nat)
    requires Inv(s) && AllUnclaimed(s, a)
    ensures a in s.objs <==> Debt(s.objs, a) > 0
  {
    NothingTotal(s, a);
    assert Account(s, a);
    NothingSettled(s.objs, a, Total(s, a));
  }

  /** No leak: after a careful run such an object is gone. */
  lemma NoLeak(run: seq<Action>, a: nat)
    requires Allowed(INIT, run) && Careful(INIT, run) && AllUnclaimed(Exec(INIT, run), a)
    ensures a !in Exec(INIT, run).objs
  {
    AllRuns(run);
    CarefulRuns(run);
    LeakedIffIndebted(Exec(INIT, run), a);
  }

  /**
   The destructor does not fold the slot's access count, and what the object then owes is the number of
   reservations that were given back to the slot's last incarnation by guards of earlier ones.
   */
  lemma DestroyExact(s: State, t: nat, x: nat, a: nat)
    requires Inv(s) && SlotInv(s) && Enabled(s, Destroy(t, x)) && s.slots[x].val.ptr == At(a)
    ensures a in s.objs && Debt(Apply(s, Destroy(t, x)).objs, a) == (Debt(s.objs, a) + s.slots[x].strays) % M
  {
    Bounds(s, t, x, a);
    assert Account(s, a);
    CountAtDestruction(s, t, x);
  }

  /** No step frees an indebted object, and only the destruction of a slot with strays changes what it owes. */
  lemma DebtStays(s: State, act: Action, a: nat)
    requires Inv(s) && Enabled(s, act) && Debt(s.objs, a) > 0
    ensures a in Apply(s, act).objs
    ensures !(act.Destroy? && s.slots[act.x].val.ptr == At(a) && s.slots[act.x].val.access % M != 0) ==>
      Debt(Apply(s, act).objs, a) == Debt(s.objs, a)
  {
    assert Account(s, a);
    if act.Run? {
      if s.threads[act.t].pc.Delete? {
        assert ThreadOk(s.threads[act.t], |s.slots|);
        Bounds(s, act.t, 0, a);
      }
      DebtStaysRun(s, act.t, act.fails, a);
    } else if act.Destroy? {
      SameRemainder(Debt(s.objs, a), Debt(s.objs, a) - s.slots[act.x].val.access, M);
    }
  }

  lemma DebtStaysRun(s: State, t: nat, fails: bool, a: nat)
    requires t < |s.threads| && RunEnabled(s, s.threads[t]) && a in s.objs
    requires !(s.threads[t].pc.Delete? && s.threads[t].doom == At(a))
    ensures a in StepRun(s, t, fails).objs && StepRun(s, t, fails).objs[a].debt == s.objs[a].debt
  {}

  /** Every destruction in the run of a slot that holds a finds an access count of zero. */
  ghost predicate CleanFor(s: State, run: seq<Action>, a: nat)
    requires Allowed(s, run)
    decreases |run|
  {
    run == [] ||
    (!(run[0].Destroy? && s.slots[run[0].x].val.ptr == At(a) && s.slots[run[0].x].val.access % M != 0) &&
     CleanFor(Apply(s, run[0]), run[1..], a))
  }

  /** So an object that owes d is never freed while its reservations stay below 2^32 - d and other slots are clean. */
  lemma {:induction false} NeverFreed(s: State, run: seq<Action>, a: nat)
    requires Inv(s) && Allowed(s, run) && Debt(s.objs, a) > 0 && CleanFor(s, run, a)
    ensures a in Exec(s, run).objs && Debt(Exec(s, run).objs, a) == Debt(s.objs, a)
    decreases |run|
  {
    if run != [] {
      StepKeeps(s, run[0]);
      DebtStays(s, run[0], a);
      NeverFreed(Apply(s, run[0]), run[1..], a);
    }
  }

  /** Nobody gets hold of an object again that nobody claims. */
  lemma Lost(s: State, s': State, t: nat, th: Thread, a: nat)
    requires AllUnclaimed(s, a) && t < |s.threads| && s'.threads == s.threads[t := th]
    requires Unclaimed(th, a) && th.doom != At(a)
    requires forall x :: 0 <= x < |s'.slots| ==> s'.slots[x].val.ptr != At(a)
    ensures AllUnclaimed(s', a)
  {}

  lemma LostCounters(s: State, t: nat, fails: bool, a: nat)
    requires Threads(s) && t < |s.threads| && RunEnabled(s, s.threads[t]) && AllUnclaimed(s, a) && a in s.objs
    requires var pc := s.threads[t].pc;
      pc.Inc? || pc.Dec? || pc.Delete? || pc.AddExternal? || pc.RemoveExternal? || pc.Ret?
    ensures AllUnclaimed(StepRun(s, t, fails), a) && a in StepRun(s, t, fails).objs
  {
    var th, s' := s.threads[t], StepRun(s, t, fails);
    assert ThreadOk(th, |s.slots|) && Unclaimed(th, a);
    if s' != s {
      Lost(s, s', t, s'.threads[t], a);
    }
  }

  lemma LostRelease(s: State, t: nat, fails: bool, a: nat)
    requires t < |s.threads| && s.threads[t].pc.Release? && RunEnabled(s, s.threads[t]) && AllUnclaimed(s, a)
    ensures AllUnclaimed(StepRelease(s, t, fails), a)
  {
    var th, s' := s.threads[t], StepRelease(s, t, fails);
    assert Unclaimed(th, a);
    assert s'.slots == s.slots || s'.slots == s.slots[th.pc.x := GivenBack(s.slots[th.pc.x], th.era)];
    Lost(s, s', t, s'.threads[t], a);
  }

  lemma LostBegin(s: State, t: nat, a: nat)
    requires t < |s.threads| && s.threads[t].pc.Begin? && RunEnabled(s, s.threads[t]) && AllUnclaimed(s, a)
    ensures AllUnclaimed(StepBegin(s, t), a)
  {
    var th, s' := s.threads[t], StepBegin(s, t);
    var op := th.pc.op;
    assert Unclaimed(th, a);
    assert s'.slots == s.slots || s'.slots == s.slots[op.x := Written(s.slots[op.x], op.desired)];
    Lost(s, s', t, s'.threads[t], a);
  }

  lemma LostAcquire(s: State, t: nat, fails: bool, a: nat)
    requires t < |s.threads| && s.threads[t].pc.Acquire? && RunEnabled(s, s.threads[t]) && AllUnclaimed(s, a)
    ensures AllUnclaimed(StepAcquire(s, t, fails), a)
  {
    var th, s' := s.threads[t], StepAcquire(s, t, fails);
    var x := th.pc.op.x;
    assert Unclaimed(th, a);
    assert s'.slots == s.slots || s'.slots == s.slots[x := Reserved(s.slots[x])];
    Lost(s, s', t, s'.threads[t], a);
  }

  lemma LostSwap(s: State, t: nat, fails: bool, a: nat)
    requires t < |s.threads| && s.threads[t].pc.Swap? && RunEnabled(s, s.threads[t]) && AllUnclaimed(s, a)
    ensures AllUnclaimed(StepSwap(s, t, fails), a)
  {
    var th, s' := s.threads[t], StepSwap(s, t, fails);
    var op := th.pc.op;
    assert Unclaimed(th, a);
    assert s'.slots == s.slots || s'.slots == s.slots[op.x := Written(s.slots[op.x], op.desired)];
    Lost(s, s', t, s'.threads[t], a);
  }

  lemma LostRun(s: State, t: nat, fails: bool, a: nat)
    requires Threads(s) && t < |s.threads| && RunEnabled(s, s.threads[t]) && AllUnclaimed(s, a) && a in s.objs
    ensures AllUnclaimed(StepRun(s, t, fails), a) && a in StepRun(s, t, fails).objs
  {
    match s.threads[t].pc
    case Release(_, _, _) => LostRelease(s, t, fails, a);
    case Begin(_) => LostBegin(s, t, a);
    case Acquire(_, _, _) => LostAcquire(s, t, fails, a);
    case Swap(_, _) => LostSwap(s, t, fails, a);
    case Idle =>
    case _ => LostCounters(s, t, fails, a);
  }

  lemma LostDestroy(s: State, t: nat, x: nat, a: nat)
    requires t < |s.threads| && x < |s.slots| && AllUnclaimed(s, a) && a in s.objs
    ensures AllUnclaimed(StepDestroy(s, t, x), a) && a in StepDestroy(s, t, x).objs
  {
    var s' := StepDestroy(s, t, x);
    assert Unclaimed(s.threads[t], a);
    assert s'.slots == s.slots[x := Slot(NO_FOLD, false, s.slots[x].era + 1, 0)];
    Lost(s, s', t, s'.threads[t], a);
  }

  lemma LostGive(s: State, t: nat, u: nat, b: nat, a: nat)
    requires Enabled(s, Give(t, u, b)) && AllUnclaimed(s, a)
    ensures AllUnclaimed(Apply(s, Give(t, u, b)), a)
  {
    assert Unclaimed(s.threads[t], a) && Unclaimed(s.threads[u], a);
  }

  lemma LostCreate(s: State, t: nat, p: Ptr, a: nat)
    requires Enabled(s, Create(t, p)) && AllUnclaimed(s, a)
    ensures AllUnclaimed(Apply(s, Create(t, p)), a)
  {
    assert Unclaimed(s.threads[t], a);
  }

  lemma LostStep(s: State, act: Action, a: nat)
    requires Threads(s) && Enabled(s, act) && AllUnclaimed(s, a) && a in s.objs
    ensures AllUnclaimed(Apply(s, act), a) && a in Apply(s, act).objs
  {
    match act
    case Run(t, fails) => LostRun(s, t, fails, a);
    case Destroy(t, x) => LostDestroy(s, t, x, a);
    case Spawn => assert Unclaimed(NEW_THREAD, a);
    case Create(t, p) => LostCreate(s, t, p, a);
    case Give(t, u, b) => LostGive(s, t, u, b, a);
    case _ => LostOther(s, act, a);
  }

  lemma LostOther(s: State, act: Action, a: nat)
    requires Enabled(s, act) && AllUnclaimed(s, a) && a in s.objs
    requires act.Copy? || act.Drop? || act.New? || act.Call?
    ensures AllUnclaimed(Apply(s, act), a) && a in Apply(s, act).objs
  {
    var s' := Apply(s, act);
    assert Unclaimed(s.threads[act.t], a);
    Lost(s, s', act.t, s'.threads[act.t], a);
  }

  /** A leaked object stays leaked for ever. */
  lemma {:induction false} LeakedForever(s: State, run: seq<Action>, a: nat)
    requires Inv(s) && Allowed(s, run) && AllUnclaimed(s, a) && a in s.objs
    ensures AllUnclaimed(Exec(s, run), a) && a in Exec(s, run).objs
    decreases |run|
  {
    if run != [] {
      StepKeeps(s, run[0]);
      LostStep(s, run[0], a);
      LeakedForever(Apply(s, run[0]), run[1..], a);
    }
  }

  // ---------------------------------------------------------------- counters

  lemma {:induction false} OnlyStrong(ths: seq<Thread>, n: nat, a: nat)
    requires n <= |ths|
    requires forall u :: 0 <= u < n ==> ths[u].res != At(a) && ths[u].fold.ptr != At(a) && ths[u].doom != At(a)
    ensures ThreadSum(ths, n, a) == Claim(ThreadSum(ths, n, a).strong, 0, 0, 0)
  {
    if n > 0 {
      OnlyStrong(ths, n - 1, a);
    }
  }

  /** Once only intrusive_ptr owners are left, the external counter is the debt and the count is theirs. */
  lemma CountersUnwind(s: State, a: nat)
    requires Inv(s) && a in s.objs
    requires forall u :: 0 <= u < |s.threads| ==>
      var th := s.threads[u]; th.res != At(a) && th.fold.ptr != At(a) && th.doom != At(a)
    requires forall x :: 0 <= x < |s.slots| ==> s.slots[x].val.ptr != At(a)
    ensures s.objs[a].external == s.objs[a].debt
    ensures s.objs[a].count == ThreadSum(s.threads, |s.threads|, a).strong
  {
    SlotsNothing(s.slots, |s.slots|, a);
    OnlyStrong(s.threads, |s.threads|, a);
    assert Account(s, a);
    NoneOutstanding(s.objs[a], Total(s, a));
  }

  lemma NoneOutstanding(c: Counter, k: Claim)
    requires Balanced(c, k) && k.res == k.pend == 0
    ensures c.external == c.debt
  {}

  /** The claims on a are such that its external counter reads zero although something is outstanding. */
  ghost predicate Overflowing(s: State, t: nat, a: nat) {
    && t < |s.threads| && s.threads[t].pc.Dec? && s.threads[t].pc.p == At(a) && a in s.objs
    && Total(s, a).strong == 1 && Total(s, a).pend == 0
    && Total(s, a).res + s.objs[a].debt > 0 && (Total(s, a).res + s.objs[a].debt) % M == 0
  }

  /**
   The bound on reservations is sharp: whenever reservations and debt come to a positive multiple of 2^32, dropping the
   last strong reference deletes an object that is still reserved or indebted.
   */
  lemma BoundIsSharp(s: State, t: nat, a: nat)
    requires Inv(s) && Overflowing(s, t, a)
    ensures StepDec(s, t).threads[t].pc.Delete? && StepDec(s, t).threads[t].doom == At(a)
    ensures Total(StepDec(s, t), a).res == Total(s, a).res
  {
    assert Account(s, a) && ThreadOk(s.threads[t], |s.slots|);
    MultipleOfM(s.objs[a], Total(s, a));
    var th := StepDec(s, t).threads[t];
    Retotal(s, StepDec(s, t), t, th, a);
  }

  const LOADER := Thread(multiset{}, At(7), NO_FOLD, Null, RemoveExternal(Idle), 0, 0, 0, -1)
  const OWNER := Thread(multiset{7}, Null, NO_FOLD, Null, Dec(At(7), Idle), 0, 0, 0, -1)

  lemma {:induction false} LoaderSum(ths: seq<Thread>, n: nat, a: nat)
    requires n <= |ths| && forall t :: 0 <= t < n ==> ths[t] == LOADER
    ensures ThreadSum(ths, n, a) == Claim(0, if a == 7 then n else 0, 0, 0)
  {
    if n > 0 {
      LoaderSum(ths, n - 1, a);
    }
  }

  /** So many threads that each reserve object 7, and its last owner. */
  ghost predicate Crowd(s: State, n: nat) {
    && s.objs == map[7 := Counter(1, 0, 0)] && s.slots == [] && |s.threads| == n + 1
    && (forall t :: 0 <= t < n ==> s.threads[t] == LOADER) && s.threads[n] == OWNER
  }

  lemma CrowdThreads(ths: seq<Thread>, n: nat, a: nat)
    requires |ths| == n + 1 && (forall t :: 0 <= t < n ==> ths[t] == LOADER) && ths[n] == OWNER
    ensures ThreadSum(ths, n + 1, a) == Plus(Claim(0, if a == 7 then n else 0, 0, 0), ThreadClaim(OWNER, a))
  {
    LoaderSum(ths, n, a);
  }

  lemma CrowdTotal(s: State, n: nat, a: nat)
    requires Crowd(s, n)
    ensures Total(s, a) == if a == 7 then Claim(1, n, 0, 0) else NO_CLAIM
  {
    var k := ThreadSum(s.threads, |s.threads|, a);
    CrowdThreads(s.threads, n, a);
    OwnerClaim(a);
    assert k == if a == 7 then Claim(1, n, 0, 0) else NO_CLAIM;
    SlotsNothing(s.slots, |s.slots|, a);
    assert Plus(k, NO_CLAIM) == k;
  }

  /** Where their number is a multiple of 2^32 the invariant has nothing against them. */
  lemma CrowdInv(s: State, n: nat)
    requires Crowd(s, n) && n % M == 0
    ensures Inv(s)
  {
    forall a: nat ensures Account(s, a) {
      CrowdTotal(s, n, a);
      Overflowed(s.objs, a, n, Total(s, a));
    }
    assert ThreadOk(LOADER, 0) && ThreadOk(OWNER, 0);
  }

  lemma OverflowExists(n: nat) returns (s: State)
    requires n > 0 && n % M == 0
    ensures Inv(s) && Overflowing(s, n, 7) && Total(s, 7).res == n
  {
    s := State(map[7 := Counter(1, 0, 0)], [], seq(n, _ => LOADER) + [OWNER], [], []);
    CrowdInv(s, n);
    CrowdTotal(s, n, 7);
  }

  lemma OwnerClaim(a: nat)
    ensures ThreadClaim(OWNER, a) == Claim(if a == 7 then 1 else 0, 0, 0, 0)
  {}

  lemma Overflowed(objs: map<nat, Counter>, a: nat, n: nat, k: Claim)
    requires n % M == 0
    requires objs == map[7 := Counter(1, 0, 0)] && k == if a == 7 then Claim(1, n, 0, 0) else NO_CLAIM
    ensures Settled(objs, a, k)
  {
    if a == 7 {
      SameRemainder(0, n, M);
    }
  }

  lemma MultipleOfM(c: Counter, k: Claim)
    requires Balanced(c, k) && (k.res + c.debt) % M == 0 && k.pend == 0
    ensures c.external == 0
  {
    SameRemainder(c.external, k.res + c.debt, M);
    SmallRemainder(c.external, M);
  }

  // ---------------------------------------------------------------- linearizability

  /**
   The completed calls of a run: each has exactly one event of the legal sequential history, with its own
   result, after its call and before its return; and a call that returned before another started comes first.
   */
  lemma Linearizable(s: State, c: Completed, d: Completed)
    requires LinInv(s) && c in s.done && d in s.done
    ensures Legal(s.hist)
    ensures c.start <= c.lin < c.end && s.hist[c.lin] == Did(c.t, c.call, c.op, c.out)
    ensures Answers(c.op, c.out, Register(s.hist[..c.lin], c.op.x))
    ensures forall j :: 0 <= j < |s.hist| && s.hist[j].Did? && s.hist[j].t == c.t && s.hist[j].call == c.call ==>
              j == c.lin
    ensures c.end <= d.start ==> c.lin < d.lin
  {
    assert Recorded(c, s.hist) && Recorded(d, s.hist);
    LegalAt(s.hist, c.lin);
    forall j | 0 <= j < |s.hist| && s.hist[j].Did?
      ensures j == c.lin || s.hist[j].t != c.t || s.hist[j].call != c.call
    {
      if j != c.lin {
        EventsDiffer(s, j, c.lin);
      }
    }
  }

  /** No two events belong to the same call. */
  lemma EventsDiffer(s: State, i: nat, j: nat)
    requires LinInv(s) && i < |s.hist| && j < |s.hist| && i != j && s.hist[i].Did? && s.hist[j].Did?
    ensures Differ(s.hist[i], s.hist[j])
  {
    if j < i {
      assert Differ(s.hist[j], s.hist[i]);
    }
  }

  /**
   compare_exchange_strong returns true only if the slot held `expected`, and has then put `desired` there;
   it returns false only with the different pointer it found, leaving the slot alone.
   */
  lemma StrongCompareExchange(s: State, c: Completed)
    requires LinInv(s) && c in s.done && c.op.Cas? && c.op.strong
    ensures 0 <= c.lin < |s.hist|
    ensures var was, now := Register(s.hist[..c.lin], c.op.x), Register(s.hist[..c.lin + 1], c.op.x);
      if c.out == Swapped then was == c.op.expected && now == c.op.desired
      else c.out == Failed(was) && was != c.op.expected && now == was
  {
    assert Recorded(c, s.hist);
    LegalAt(s.hist, c.lin);
    var h := s.hist[..c.lin + 1];
    assert h[..c.lin] == s.hist[..c.lin] && h[|h| - 1] == s.hist[c.lin];
  }

  /** The pointer an operation returns (or writes to `expected`) comes with a strong reference of the caller. */
  lemma ResultIsOwned(s: State, t: nat)
    requires Inv(s) && t < |s.threads| && s.threads[t].pc.Ret?
    ensures Returned(s.threads[t].pc.op, s.threads[t].pc.out) <= s.threads[t].held
  {
    assert ThreadOk(s.threads[t], |s.slots|);
  }
}
