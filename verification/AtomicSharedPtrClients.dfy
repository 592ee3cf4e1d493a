/**
 The theorems about `atomic_shared_ptr` for a client that keeps two rules of its own: few threads, and no pointer
 stored back to a slot while an unfinished operation on that slot reserves it.
 */
module AtomicSharedPtrClients {
  import opened AtomicSharedPtr
  import opened AtomicSharedPtrLinear
  import opened AtomicSharedPtrSafety
  import opened AtomicSharedPtrSlots
  import opened AtomicSharedPtrSteps
  import opened AtomicSharedPtrTheorems

  lemma {:induction false} FewReservations(ths: seq<Thread>, n: nat, a: nat)
    requires n <= |ths|
    ensures ThreadSum(ths, n, a).res <= n
  {
    if n > 0 {
      FewReservations(ths, n - 1, a);
    }
  }

  lemma {:induction false} NoSlotReservations(sls: seq<Slot>, n: nat, a: nat)
    requires n <= |sls|
    ensures SlotSum(sls, n, a).res == 0
  {
    if n > 0 {
      NoSlotReservations(sls, n - 1, a);
    }
  }

  /** A thread has at most one reservation, so fewer than 2^32 threads meet the assumption of the main theorem. */
  lemma FewThreads(s: State)
    requires |s.threads| < M && NoDebts(s.objs)
    ensures Bounded(s)
  {
    forall a: nat ensures Total(s, a).res + Debt(s.objs, a) < M {
      FewReservations(s.threads, |s.threads|, a);
      NoSlotReservations(s.slots, |s.slots|, a);
    }
  }

  /** Steps that can be taken, none of which stores a reserved pointer back. */
  ghost predicate Disciplined(s: State, run: seq<Action>)
    decreases |run|
  {
    run == [] || (Enabled(s, run[0]) && !StoresBack(s, run[0]) && Disciplined(Apply(s, run[0]), run[1..]))
  }

  function Spawns(run: seq<Action>): nat {
    if run == [] then 0 else (if run[0].Spawn? then 1 else 0) + Spawns(run[1..])
  }

  lemma ThreadCount(s: State, act: Action)
    requires Enabled(s, act)
    ensures |Apply(s, act).threads| == |s.threads| + if act.Spawn? then 1 else 0
  {
    match act
    case Run(t, fails) => RunThreadCount(s, t, fails);
    case Destroy(t, x) => assert |StepDestroy(s, t, x).threads| == |s.threads|;
    case _ =>
  }

  lemma RunThreadCount(s: State, t: nat, fails: bool)
    requires t < |s.threads| && RunEnabled(s, s.threads[t])
    ensures |StepRun(s, t, fails).threads| == |s.threads|
  {
    match s.threads[t].pc
    case Begin(_) => assert |StepBegin(s, t).threads| == |s.threads|;
    case Acquire(_, _, _) => assert |StepAcquire(s, t, fails).threads| == |s.threads|;
    case Swap(_, _) => assert |StepSwap(s, t, fails).threads| == |s.threads|;
    case Release(_, _, _) => assert |StepRelease(s, t, fails).threads| == |s.threads|;
    case _ =>
  }

  lemma {:induction false} DisciplinedRuns(s: State, run: seq<Action>)
    requires Inv(s) && SlotInv(s) && NoStrays(s) && NoDebts(s.objs)
    requires Disciplined(s, run) && |s.threads| + Spawns(run) < M
    ensures Allowed(s, run) && Careful(s, run)
    decreases |run|
  {
    FewThreads(s);
    if run != [] {
      StepKeeps(s, run[0]);
      StepLaw(s, run[0]);
      StepStrays(s, run[0]);
      StepDebts(s, run[0]);
      ThreadCount(s, run[0]);
      DisciplinedRuns(Apply(s, run[0]), run[1..]);
    }
  }

  /**
   With fewer than 2^32 threads and no reserved pointer stored back nothing is assumed of the counters: every run of
   steps that can be taken keeps all invariants, and leaves no object that nobody can reach.
   */
  lemma DisciplinedClient(run: seq<Action>)
    requires Disciplined(INIT, run) && Spawns(run) < M
    ensures Allowed(INIT, run) && Careful(INIT, run)
    ensures var s := Exec(INIT, run);
      && Inv(s) && LinInv(s) && SlotInv(s)
      && forall a: nat :: AllUnclaimed(s, a) ==> a !in s.objs
  {
    InitiallySafe();
    InitiallyTidy();
    DisciplinedRuns(INIT, run);
    AllRuns(run);
    forall a: nat | AllUnclaimed(Exec(INIT, run), a) ensures a !in Exec(INIT, run).objs {
      NoLeak(run, a);
    }
  }
}
