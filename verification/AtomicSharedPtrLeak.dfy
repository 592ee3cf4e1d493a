/**
 The destructor of `atomic_shared_ptr` releases its pointer without folding the slot's access count, on the
 ground that the count must be zero when nobody uses the slot.  It need not be: a loader that reserved the
 object in one incarnation of the slot may give the reservation back to a later incarnation of the same pointer,
 whose count is then -1 when everybody has left.  This run ends with an object that nobody can reach and that is
 never deleted.
 */
module AtomicSharedPtrLeak {
  import opened AtomicSharedPtr
  import opened AtomicSharedPtrClients
  import opened AtomicSharedPtrSafety
  import opened AtomicSharedPtrSlots
  import opened AtomicSharedPtrTheorems

  lemma {:induction false} Snoc(s: State, run: seq<Action>, act: Action)
    requires Allowed(s, run)
    requires Bounded(Exec(s, run)) && Enabled(Exec(s, run), act)
    ensures Allowed(s, run + [act]) && Exec(s, run + [act]) == Apply(Exec(s, run), act)
    decreases |run|
  {
    if run == [] {
      assert Allowed(Apply(s, act), []);
      assert [act][1..] == [];
      assert run + [act] == [act];
    } else {
      Snoc(Apply(s, run[0]), run[1..], act);
      assert (run + [act])[1..] == run[1..] + [act];
    }
  }

  lemma Then(run: seq<Action>, s: State, act: Action) returns (run': seq<Action>, s': State)
    requires Allowed(INIT, run) && s == Exec(INIT, run)
    requires |s.threads| < M && NoDebts(s.objs) && Enabled(s, act)
    ensures Allowed(INIT, run') && s' == Exec(INIT, run') && s' == Apply(s, act)
  {
    FewThreads(s);
    Snoc(INIT, run, act);
    run' := run + [act];
    s' := Apply(s, act);
  }

  const A: nat := 7
  const P := At(A)

  ghost predicate View(s: State, c: Counter, sl: Slot, h0: multiset<nat>, p0: PC,
                       h1: multiset<nat>, r1: Ptr, p1: PC) {
    && s.objs == map[A := c] && s.slots == [sl] && |s.threads| == 2
    && var t0, t1 := s.threads[0], s.threads[1];
       && t0.held == h0 && t0.res == Null && t0.doom == Null && t0.pc == p0
       && t1.held == h1 && t1.res == r1 && t1.era == 0 && t1.doom == Null && t1.fold == NO_FOLD && t1.pc == p1
  }

  lemma Begun() returns (run: seq<Action>, s: State)
    ensures Allowed(INIT, run) && s == Exec(INIT, run)
    ensures s.objs == map[] && s.slots == [] && s.threads == [NEW_THREAD, NEW_THREAD]
  {
    run, s := [], INIT;
    run, s := Then(run, s, Spawn);
    run, s := Then(run, s, Spawn);
  }

  lemma Made() returns (run: seq<Action>, s: State)
    ensures Allowed(INIT, run) && s == Exec(INIT, run)
    ensures s.objs == map[A := Counter(2, 0, 0)] && s.slots == []
    ensures s.threads == [NEW_THREAD.(held := multiset{A, A}), NEW_THREAD]
  {
    run, s := Begun();
    run, s := Then(run, s, New(0, A));
    run, s := Then(run, s, Copy(0, A));
    run, s := Then(run, s, Run(0, false));
    assert s.threads[0].held == multiset{A, A};
    assert s.threads[0] == NEW_THREAD.(held := multiset{A, A});
  }

  /** One owner thread makes an object, keeps one reference and publishes another in slot 0. */
  lemma Publish() returns (run: seq<Action>, s: State)
    ensures Allowed(INIT, run) && s == Exec(INIT, run)
    ensures View(s, Counter(2, 0, 0), Slot(Counted(P, 0), true, 0, 0), multiset{A}, Idle, multiset{}, Null, Idle)
    ensures s.threads[0].fold == NO_FOLD
  {
    run, s := Made();
    run, s := Then(run, s, Create(0, P));
  }

  /** The other thread loads: it reserves the object on the slot and takes its reference. */
  lemma LoadHalf() returns (run: seq<Action>, s: State)
    ensures Allowed(INIT, run) && s == Exec(INIT, run)
    ensures View(s, Counter(3, 0, 0), Slot(Counted(P, 1), true, 0, 0), multiset{A}, Idle, multiset{A}, P,
                 Release(0, Counted(P, 1), Ret(Load(0), Got(P))))
    ensures s.threads[0].fold == NO_FOLD
  {
    run, s := Publish();
    run, s := Then(run, s, Call(1, Load(0)));
    run, s := Then(run, s, Run(1, false));
    assert View(s, Counter(2, 0, 0), Slot(Counted(P, 0), true, 0, 0), multiset{A}, Idle, multiset{}, Null,
                Acquire(Load(0), Counted(P, 0), false));
    run, s := Then(run, s, Run(1, false));
    run, s := Then(run, s, Run(1, false));
  }

  /** Meanwhile the owner clears the slot, folding the reservation into the object ... */
  lemma ClearCalled() returns (run: seq<Action>, s: State)
    ensures Allowed(INIT, run) && s == Exec(INIT, run)
    ensures View(s, Counter(3, 0, 0), Slot(Counted(P, 1), true, 0, 0), multiset{A}, Begin(Store(0, Null)),
                 multiset{A}, P, Release(0, Counted(P, 1), Ret(Load(0), Got(P))))
    ensures s.threads[0].fold == NO_FOLD
  {
    run, s := LoadHalf();
    run, s := Then(run, s, Call(0, Store(0, Null)));
  }

  lemma Take() returns (run: seq<Action>, s: State)
    ensures Allowed(INIT, run) && s == Exec(INIT, run)
    ensures View(s, Counter(3, 0, 0), Slot(Counted(Null, 0), true, 1, 0), multiset{A, A},
                 AddExternal(Dec(P, Ret(Store(0, Null), Stored))), multiset{A}, P,
                 Release(0, Counted(P, 1), Ret(Load(0), Got(P)))) && s.threads[0].fold == Counted(P, 1)
  {
    run, s := ClearCalled();
    run, s := Then(run, s, Run(0, false));
    assert s.threads[0].held == multiset{A, A};
  }

  lemma Fold() returns (run: seq<Action>, s: State)
    ensures Allowed(INIT, run) && s == Exec(INIT, run)
    ensures View(s, Counter(3, 1, 0), Slot(Counted(Null, 0), true, 1, 0), multiset{A, A},
                 Dec(P, Ret(Store(0, Null), Stored)), multiset{A}, P, Release(0, Counted(P, 1), Ret(Load(0), Got(P))))
    ensures s.threads[0].fold == NO_FOLD
  {
    run, s := Take();
    run, s := Then(run, s, Run(0, false));
  }

  lemma Clear() returns (run: seq<Action>, s: State)
    ensures Allowed(INIT, run) && s == Exec(INIT, run)
    ensures View(s, Counter(2, 1, 0), Slot(Counted(Null, 0), true, 1, 0), multiset{A}, Idle, multiset{A}, P,
                 Release(0, Counted(P, 1), Ret(Load(0), Got(P))))
    ensures s.threads[0].fold == NO_FOLD
  {
    run, s := Fold();
    run, s := Then(run, s, Run(0, false));
    run, s := Then(run, s, Run(0, false));
  }

  /** ... and stores the same object again ... */
  lemma StoreCalled() returns (run: seq<Action>, s: State)
    ensures Allowed(INIT, run) && s == Exec(INIT, run)
    ensures View(s, Counter(2, 1, 0), Slot(Counted(Null, 0), true, 1, 0), multiset{A}, Begin(Store(0, P)),
                 multiset{A}, P, Release(0, Counted(P, 1), Ret(Load(0), Got(P))))
    ensures s.threads[0].fold == NO_FOLD
  {
    run, s := Clear();
    run, s := Then(run, s, Call(0, Store(0, P)));
  }

  lemma StoreBack() returns (run: seq<Action>, s: State)
    ensures Allowed(INIT, run) && s == Exec(INIT, run)
    ensures View(s, Counter(2, 1, 0), Slot(Counted(P, 0), true, 2, 0), multiset{}, Ret(Store(0, P), Stored),
                 multiset{A}, P, Release(0, Counted(P, 1), Ret(Load(0), Got(P))))
    ensures s.threads[0].fold == NO_FOLD
  {
    run, s := StoreCalled();
    run, s := Then(run, s, Run(0, false));
    assert s.threads[0].held == multiset{};
  }

  lemma Again() returns (run: seq<Action>, s: State)
    ensures Allowed(INIT, run) && s == Exec(INIT, run)
    ensures View(s, Counter(2, 1, 0), Slot(Counted(P, 0), true, 2, 0), multiset{}, Idle, multiset{A}, P,
                 Release(0, Counted(P, 1), Ret(Load(0), Got(P))))
    ensures s.threads[0].fold == NO_FOLD
  {
    run, s := StoreBack();
    run, s := Then(run, s, Run(0, false));
  }

  /** ... to whose new incarnation the loader gives its reservation back. */
  lemma Returned() returns (run: seq<Action>, s: State)
    ensures Allowed(INIT, run) && s == Exec(INIT, run)
    ensures View(s, Counter(2, 1, 0), Slot(Counted(P, -1), true, 2, 1), multiset{}, Idle, multiset{A}, Null,
                 Ret(Load(0), Got(P)))
    ensures s.threads[0].fold == NO_FOLD
  {
    run, s := Again();
    run, s := Then(run, s, Run(1, false));
    run, s := Then(run, s, Run(1, false));
  }

  lemma Republish() returns (run: seq<Action>, s: State)
    ensures Allowed(INIT, run) && s == Exec(INIT, run)
    ensures View(s, Counter(1, 1, 0), Slot(Counted(P, -1), true, 2, 1), multiset{}, Idle, multiset{}, Null, Idle)
    ensures s.threads[0].fold == NO_FOLD
  {
    run, s := Returned();
    run, s := Then(run, s, Run(1, false));
    run, s := Then(run, s, Drop(1, A));
    run, s := Then(run, s, Run(1, false));
  }

  lemma Destroyed() returns (run: seq<Action>, s: State)
    ensures Allowed(INIT, run) && s == Exec(INIT, run)
    ensures View(s, Counter(1, 1, 1), Slot(NO_FOLD, false, 3, 0), multiset{A}, Dec(P, Idle), multiset{}, Null, Idle)
    ensures s.threads[0].fold == NO_FOLD
  {
    run, s := Republish();
    run, s := Then(run, s, Destroy(0, 0));
    assert s.threads[0].held == multiset{A};
  }

  lemma OneDebt(s: State)
    requires |s.threads| == 2 && s.objs == map[A := Counter(1, 1, 1)]
    ensures Bounded(s)
  {
    forall a: nat ensures Total(s, a).res + Debt(s.objs, a) < M {
      FewReservations(s.threads, |s.threads|, a);
      NoSlotReservations(s.slots, |s.slots|, a);
    }
  }

  lemma Stranded() returns (run: seq<Action>, s: State)
    ensures Allowed(INIT, run) && s == Exec(INIT, run)
    ensures View(s, Counter(0, 1, 1), Slot(NO_FOLD, false, 3, 0), multiset{}, Idle, multiset{}, Null, Idle)
    ensures AllUnclaimed(s, A)
  {
    run, s := Destroyed();
    OneDebt(s);
    Snoc(INIT, run, Run(0, false));
    run, s := run + [Run(0, false)], Apply(s, Run(0, false));
    assert s.threads[0].held == multiset{};
    assert Unclaimed(s.threads[0], A) && Unclaimed(s.threads[1], A);
  }

  /**
   Both threads are idle and no operation was under way on the slot when it was destroyed, yet the object is left owing
   the one reservation.  However the run goes on, it stays allocated and nobody gets hold of it.
   */
  lemma LeakAfterAba() returns (run: seq<Action>, s: State)
    ensures Allowed(INIT, run) && s == Exec(INIT, run) && !Careful(INIT, run)
    ensures s.objs == map[A := Counter(0, 1, 1)] && forall u :: 0 <= u < |s.threads| ==> s.threads[u].pc.Idle?
    ensures forall more :: Allowed(s, more) ==> AllUnclaimed(Exec(s, more), A) && A in Exec(s, more).objs
  {
    run, s := Stranded();
    AllRuns(run);
    if Careful(INIT, run) {
      NoLeak(run, A);
    }
    forall more | Allowed(s, more) ensures AllUnclaimed(Exec(s, more), A) && A in Exec(s, more).objs {
      LeakedForever(s, more, A);
    }
  }
}
