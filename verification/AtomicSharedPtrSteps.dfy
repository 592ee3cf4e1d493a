/** Every step of the system keeps the invariant. */
module AtomicSharedPtrSteps {
  import opened AtomicSharedPtr
  import opened AtomicSharedPtrSafety

  /** What a step leaves to thread th is as it was. */
  ghost predicate SameClaims(was: Thread, th: Thread) {
    th.held == was.held && th.res == was.res && th.fold == was.fold && th.doom == was.doom
  }

  lemma NoChange(k: Claim, c: Claim)
    ensures Change(k, c, c) == k
  {}

  /** A step that only moves the program counter (and history variables) of thread t keeps the accounts. */
  lemma KeepAccounts(s: State, s': State, t: nat, th: Thread)
    requires Accounts(s) && t < |s.threads| && s'.threads == s.threads[t := th] && s'.slots == s.slots
    requires s'.objs == s.objs && SameClaims(s.threads[t], th)
    ensures Accounts(s')
  {
    forall a: nat ensures Account(s', a) {
      assert Account(s, a);
      Retotal(s, s', t, th, a);
      NoChange(Total(s, a), ThreadClaim(th, a));
    }
  }

  lemma KeepThreads(s: State, s': State, t: nat, th: Thread)
    requires Threads(s) && t < |s.threads| && s'.threads == s.threads[t := th] && |s'.slots| == |s.slots|
    requires ThreadOk(th, |s.slots|)
    ensures Threads(s')
  {}

  lemma IncSettled(objs: map<nat, Counter>, p: nat, a: nat, k: Claim)
    requires p in objs && Settled(objs, a, k) && Sound(k) && (a == p ==> k.strong + k.res > 0)
    ensures Settled(objs[p := objs[p].(count := objs[p].count + 1)], a,
                    if a == p then k.(strong := k.strong + 1) else k)
  {}

  lemma IncClaim(was: Thread, th: Thread, p: nat, a: nat, k: Claim)
    requires th.held == was.held + multiset{p} && th.res == was.res && th.fold == was.fold && th.doom == was.doom
    ensures Change(k, ThreadClaim(was, a), ThreadClaim(th, a)) == if a == p then k.(strong := k.strong + 1) else k
  {}

  lemma IncAccount(s: State, s': State, t: nat, th: Thread, p: nat, a: nat)
    requires t < |s.threads| && s'.threads == s.threads[t := th] && s'.slots == s.slots
    requires p in s.objs && s'.objs == s.objs[p := s.objs[p].(count := s.objs[p].count + 1)]
    requires var was := s.threads[t];
      && th.held == was.held + multiset{p} && th.res == was.res && th.fold == was.fold && th.doom == was.doom
      && (was.res == At(p) || p in was.held)
    requires Account(s, a) && Sound(Total(s, a)) && Part(ThreadClaim(s.threads[t], a), Total(s, a))
    ensures Account(s', a)
  {
    Retotal(s, s', t, th, a);
    IncClaim(s.threads[t], th, p, a, Total(s, a));
    IncSettled(s.objs, p, a, Total(s, a));
  }

  lemma IncThread(th: Thread, n: nat)
    requires ThreadOk(th, n) && th.pc.Inc?
    ensures ThreadOk(th.(pc := th.pc.next, held := th.held + Refs(th.pc.p)), n)
  {}

  lemma IncKeeps(s: State, t: nat)
    requires Inv(s) && t < |s.threads| && s.threads[t].pc.Inc? && RunEnabled(s, s.threads[t])
    ensures Inv(StepInc(s, t))
  {
    var th := s.threads[t];
    var p := th.pc.p;
    var s' := StepInc(s, t);
    assert ThreadOk(th, |s.slots|);
    IncThread(th, |s.slots|);
    assert p.Null? ==> th.held + Refs(p) == th.held;
    KeepThreads(s, s', t, s'.threads[t]);
    if p.Null? {
      KeepAccounts(s, s', t, s'.threads[t]);
    } else {
      forall a: nat ensures Account(s', a) {
        Bounds(s, t, 0, a);
        assert Account(s, a);
        IncAccount(s, s', t, s'.threads[t], p.addr, a);
      }
    }
  }

  /** dec_count decides to delete exactly when nothing else claims the object any more, and there is no debt. */
  lemma DropStrong(c: Counter, k: Claim, k': Claim)
    requires Balanced(c, k) && Sound(k) && Sound(k') && k.res + c.debt < M && k.strong >= 1
    requires k' == k.(strong := k.strong - 1)
    ensures c.count == 1 && c.external == 0 <==> k'.strong == 0 && k'.res == 0 && c.debt == 0
    ensures !(c.count == 1 && c.external == 0) ==> Balanced(c.(count := c.count - 1), k')
  {}

  /** ... and so does remove_external_counter. */
  lemma DropReservation(c: Counter, k: Claim, k': Claim)
    requires Balanced(c, k) && Sound(k) && Sound(k') && k.res + c.debt < M && k.res >= 1
    requires k' == k.(res := k.res - 1)
    ensures c.count == 0 && c.external == 1 <==> k'.strong == 0 && k'.res == 0 && c.debt == 0
    ensures Balanced(c.(external := U32(c.external - 1)),
                     k'.(doom := if c.count == 0 && c.external == 1 then 1 else 0))
  {}

  ghost predicate LastStrong(c: Counter) {
    c.count == 1 && c.external == 0
  }

  ghost predicate LastReservation(c: Counter) {
    c.count == 0 && c.external == 1
  }

  /** The claims after dec_count on p. */
  function Decremented(k: Claim, last: bool): Claim {
    k.(strong := k.strong - 1, doom := k.doom + if last then 1 else 0)
  }

  lemma DecSettled(objs: map<nat, Counter>, p: nat, a: nat, k: Claim)
    requires p in objs && Settled(objs, a, k) && Sound(k) && k.res + Debt(objs, a) < M
    requires a == p ==> k.strong >= 1 && Sound(Decremented(k, LastStrong(objs[p])))
    ensures Settled(objs[p := objs[p].(count := objs[p].count - 1)], a,
                    if a == p then Decremented(k, LastStrong(objs[p])) else k)
  {
    if a == p {
      DropStrong(objs[a], k, k.(strong := k.strong - 1));
    }
  }

  lemma DecClaim(was: Thread, th: Thread, p: nat, last: bool, a: nat, k: Claim)
    requires p in was.held && th.held == was.held - multiset{p} && th.res == was.res && th.fold == was.fold
    requires was.doom.Null? && th.doom == if last then At(p) else Null
    ensures Change(k, ThreadClaim(was, a), ThreadClaim(th, a)) == if a == p then Decremented(k, last) else k
  {}

  lemma DecAccount(s: State, s': State, t: nat, th: Thread, p: nat, a: nat)
    requires t < |s.threads| && s'.threads == s.threads[t := th] && s'.slots == s.slots
    requires p in s.objs && s'.objs == s.objs[p := s.objs[p].(count := s.objs[p].count - 1)]
    requires var was := s.threads[t];
      && p in was.held && th.held == was.held - multiset{p} && th.res == was.res && th.fold == was.fold
      && was.doom.Null? && th.doom == if LastStrong(s.objs[p]) then At(p) else Null
    requires Account(s, a) && Sound(Total(s, a)) && Sound(Total(s', a)) && Total(s, a).res + Debt(s.objs, a) < M
    requires Part(ThreadClaim(s.threads[t], a), Total(s, a))
    ensures Account(s', a)
  {
    Retotal(s, s', t, th, a);
    DecClaim(s.threads[t], th, p, LastStrong(s.objs[p]), a, Total(s, a));
    DecSettled(s.objs, p, a, Total(s, a));
  }

  lemma DecThread(th: Thread, n: nat, doomed: bool)
    requires ThreadOk(th, n) && th.pc.Dec?
    ensures var h := th.held - Refs(th.pc.p);
      ThreadOk(th.(held := h, doom := if doomed && th.pc.p.At? then th.pc.p else Null,
                   pc := if doomed && th.pc.p.At? then Delete(th.pc.next) else th.pc.next), n)
  {}

  lemma DecKeeps(s: State, t: nat)
    requires Inv(s) && Bounded(s) && t < |s.threads| && s.threads[t].pc.Dec? && RunEnabled(s, s.threads[t])
    ensures Inv(StepDec(s, t))
  {
    var th := s.threads[t];
    var s' := StepDec(s, t);
    var doomed := th.pc.p.At? && LastStrong(s.objs[th.pc.p.addr]);
    assert ThreadOk(th, |s.slots|);
    DecThread(th, |s.slots|, doomed);
    assert th.pc.p.Null? ==> th.held - Refs(th.pc.p) == th.held;
    KeepThreads(s, s', t, s'.threads[t]);
    if th.pc.p.Null? {
      KeepAccounts(s, s', t, s'.threads[t]);
    } else {
      forall a: nat ensures Account(s', a) {
        Bounds(s, t, 0, a);
        Bounds(s', t, 0, a);
        assert Account(s, a) && Total(s, a).res + Debt(s.objs, a) < M;
        DecAccount(s, s', t, s'.threads[t], th.pc.p.addr, a);
      }
    }
  }

  lemma DeleteSettled(objs: map<nat, Counter>, p: nat, a: nat, k: Claim)
    requires p in objs && Settled(objs, a, k) && Sound(k) && (a == p ==> k.doom >= 1)
    ensures Settled(objs - {p}, a, if a == p then k.(doom := k.doom - 1) else k)
  {}

  lemma DeleteClaim(was: Thread, th: Thread, p: nat, a: nat, k: Claim)
    requires th.held == was.held && th.res == was.res && th.fold == was.fold && was.doom == At(p) && th.doom.Null?
    ensures Change(k, ThreadClaim(was, a), ThreadClaim(th, a)) == if a == p then k.(doom := k.doom - 1) else k
  {}

  lemma DeleteAccount(s: State, s': State, t: nat, th: Thread, p: nat, a: nat)
    requires t < |s.threads| && s'.threads == s.threads[t := th] && s'.slots == s.slots
    requires p in s.objs && s'.objs == s.objs - {p}
    requires var was := s.threads[t];
      th.held == was.held && th.res == was.res && th.fold == was.fold && was.doom == At(p) && th.doom.Null?
    requires Account(s, a) && Sound(Total(s, a)) && Part(ThreadClaim(s.threads[t], a), Total(s, a))
    ensures Account(s', a)
  {
    Retotal(s, s', t, th, a);
    DeleteClaim(s.threads[t], th, p, a, Total(s, a));
    DeleteSettled(s.objs, p, a, Total(s, a));
  }

  lemma DeleteKeeps(s: State, t: nat)
    requires Inv(s) && t < |s.threads| && s.threads[t].pc.Delete? && RunEnabled(s, s.threads[t])
    ensures Inv(StepDelete(s, t))
  {
    var th := s.threads[t];
    var s' := StepDelete(s, t);
    assert ThreadOk(th, |s.slots|);
    KeepThreads(s, s', t, s'.threads[t]);
    forall a: nat ensures Account(s', a) {
      Bounds(s, t, 0, a);
      assert Account(s, a);
      DeleteAccount(s, s', t, s'.threads[t], th.doom.addr, a);
    }
  }

  /** The modulo-2^32 narrowing of a signed displacement cancels in the conservation law. */
  lemma FoldSettled(objs: map<nat, Counter>, p: nat, amount: int, a: nat, k: Claim)
    requires p in objs && Settled(objs, a, k)
    ensures Settled(objs[p := objs[p].(external := U32(objs[p].external + U32(amount)))], a,
                    if a == p then k.(pend := k.pend - amount) else k)
  {}

  lemma FoldClaim(was: Thread, th: Thread, p: nat, a: nat, k: Claim)
    requires th.held == was.held && th.res == was.res && th.doom == was.doom && th.fold == NO_FOLD
    requires was.fold.ptr == At(p)
    ensures Change(k, ThreadClaim(was, a), ThreadClaim(th, a)) ==
            if a == p then k.(pend := k.pend - was.fold.access) else k
  {}

  lemma AddExternalAccount(s: State, s': State, t: nat, th: Thread, p: nat, a: nat)
    requires t < |s.threads| && s'.threads == s.threads[t := th] && s'.slots == s.slots
    requires var was := s.threads[t];
      && th.held == was.held && th.res == was.res && th.doom == was.doom && th.fold == NO_FOLD
      && was.fold.ptr == At(p) && p in s.objs
      && s'.objs == s.objs[p := s.objs[p].(external := U32(s.objs[p].external + U32(was.fold.access)))]
    requires Account(s, a)
    ensures Account(s', a)
  {
    Retotal(s, s', t, th, a);
    FoldClaim(s.threads[t], th, p, a, Total(s, a));
    FoldSettled(s.objs, p, s.threads[t].fold.access, a, Total(s, a));
  }

  lemma AddExternalKeeps(s: State, t: nat)
    requires Inv(s) && t < |s.threads| && s.threads[t].pc.AddExternal? && RunEnabled(s, s.threads[t])
    ensures Inv(StepAddExternal(s, t))
  {
    var th := s.threads[t];
    var s' := StepAddExternal(s, t);
    assert ThreadOk(th, |s.slots|);
    KeepThreads(s, s', t, s'.threads[t]);
    forall a: nat ensures Account(s', a) {
      assert Account(s, a);
      AddExternalAccount(s, s', t, s'.threads[t], th.fold.ptr.addr, a);
    }
  }

  /** The claims after remove_external_counter on p. */
  function Unreserved(k: Claim, last: bool): Claim {
    k.(res := k.res - 1, doom := k.doom + if last then 1 else 0)
  }

  lemma UnreserveSettled(objs: map<nat, Counter>, p: nat, a: nat, k: Claim)
    requires p in objs && Settled(objs, a, k) && Sound(k) && k.res + Debt(objs, a) < M
    requires a == p ==> k.res >= 1 && Sound(Unreserved(k, LastReservation(objs[p])))
    ensures Settled(objs[p := objs[p].(external := U32(objs[p].external - 1))], a,
                    if a == p then Unreserved(k, LastReservation(objs[p])) else k)
  {
    if a == p {
      DropReservation(objs[a], k, k.(res := k.res - 1));
    }
  }

  lemma UnreserveClaim(was: Thread, th: Thread, p: nat, last: bool, a: nat, k: Claim)
    requires th.held == was.held && th.fold == was.fold && was.res == At(p) && th.res.Null?
    requires was.doom.Null? && th.doom == if last then At(p) else Null
    ensures Change(k, ThreadClaim(was, a), ThreadClaim(th, a)) == if a == p then Unreserved(k, last) else k
  {}

  lemma RemoveExternalAccount(s: State, s': State, t: nat, th: Thread, p: nat, a: nat)
    requires t < |s.threads| && s'.threads == s.threads[t := th] && s'.slots == s.slots
    requires p in s.objs && s'.objs == s.objs[p := s.objs[p].(external := U32(s.objs[p].external - 1))]
    requires var was := s.threads[t];
      && th.held == was.held && th.fold == was.fold && was.res == At(p) && th.res.Null?
      && was.doom.Null? && th.doom == if LastReservation(s.objs[p]) then At(p) else Null
    requires Account(s, a) && Sound(Total(s, a)) && Sound(Total(s', a)) && Total(s, a).res + Debt(s.objs, a) < M
    requires Part(ThreadClaim(s.threads[t], a), Total(s, a))
    ensures Account(s', a)
  {
    Retotal(s, s', t, th, a);
    UnreserveClaim(s.threads[t], th, p, LastReservation(s.objs[p]), a, Total(s, a));
    UnreserveSettled(s.objs, p, a, Total(s, a));
  }

  lemma RemoveExternalThread(th: Thread, n: nat, last: bool)
    requires ThreadOk(th, n) && th.pc.RemoveExternal?
    ensures ThreadOk(th.(res := Null, doom := if last then th.res else th.doom,
                         pc := if last then Delete(th.pc.next) else th.pc.next), n)
  {}

  lemma RemoveExternalKeeps(s: State, t: nat)
    requires Inv(s) && Bounded(s) && t < |s.threads| && s.threads[t].pc.RemoveExternal?
    requires RunEnabled(s, s.threads[t])
    ensures Inv(StepRemoveExternal(s, t))
  {
    var th, s' := s.threads[t], StepRemoveExternal(s, t);
    assert ThreadOk(th, |s.slots|);
    RemoveExternalThread(th, |s.slots|, LastReservation(s.objs[th.res.addr]));
    KeepThreads(s, s', t, s'.threads[t]);
    forall a: nat ensures Account(s', a) {
      Bounds(s, t, 0, a);
      Bounds(s', t, 0, a);
      assert Account(s, a) && Total(s, a).res + Debt(s.objs, a) < M;
      RemoveExternalAccount(s, s', t, s'.threads[t], th.res.addr, a);
    }
  }

  lemma CountSettled(objs: map<nat, Counter>, a: nat, k: Claim, delta: int)
    requires Settled(objs, a, k) && Sound(k) && k.strong >= 1 && k.res + delta >= 0
    ensures Settled(objs, a, k.(res := k.res + delta, pend := k.pend + delta))
  {}

  lemma CountClaim(was: Thread, th: Thread, sl: Slot, sl': Slot, delta: int, a: nat, k: Claim)
    requires th.held == was.held && th.fold == was.fold && th.doom == was.doom && delta in {-1, 1}
    requires if delta == 1 then was.res.Null? && th.res == sl.val.ptr else was.res == sl.val.ptr && th.res.Null?
    requires sl'.val == sl.val.(access := sl.val.access + delta)
    ensures Change(Change(k, ThreadClaim(was, a), ThreadClaim(th, a)), SlotClaim(sl, a), SlotClaim(sl', a)) ==
            if sl.val.ptr == At(a) then k.(res := k.res + delta, pend := k.pend + delta) else k
  {}

  /** A reservation taken on, or given back to, a slot that holds the object cancels against its access count. */
  lemma CountAccount(s: State, s': State, t: nat, th: Thread, x: nat, sl: Slot, delta: int, a: nat)
    requires t < |s.threads| && x < |s.slots| && delta in {-1, 1} && s'.objs == s.objs
    requires s'.threads == s.threads[t := th] && s'.slots == s.slots[x := sl]
    requires sl.val == s.slots[x].val.(access := s.slots[x].val.access + delta)
    requires var was := s.threads[t];
      && th.held == was.held && th.fold == was.fold && th.doom == was.doom
      && if delta == 1 then was.res.Null? && th.res == sl.val.ptr else was.res == sl.val.ptr && th.res.Null?
    requires Account(s, a) && Sound(Total(s, a)) && Part(SlotClaim(s.slots[x], a), Total(s, a))
    requires Part(ThreadClaim(s.threads[t], a), Total(s, a))
    ensures Account(s', a)
  {
    RetotalSlot(s, s', t, th, x, sl, a);
    CountClaim(s.threads[t], th, s.slots[x], sl, delta, a, Total(s, a));
    if sl.val.ptr == At(a) {
      CountSettled(s.objs, a, Total(s, a), delta);
    }
  }

  lemma CountAccounts(s: State, s': State, t: nat, th: Thread, x: nat, sl: Slot, delta: int)
    requires Inv(s) && t < |s.threads| && x < |s.slots| && delta in {-1, 1} && s'.objs == s.objs
    requires s'.threads == s.threads[t := th] && s'.slots == s.slots[x := sl]
    requires sl.val == s.slots[x].val.(access := s.slots[x].val.access + delta)
    requires var was := s.threads[t];
      && th.held == was.held && th.fold == was.fold && th.doom == was.doom
      && if delta == 1 then was.res.Null? && th.res == sl.val.ptr else was.res == sl.val.ptr && th.res.Null?
    ensures Accounts(s')
  {
    forall a: nat ensures Account(s', a) {
      Bounds(s, t, x, a);
      assert Account(s, a);
      CountAccount(s, s', t, th, x, sl, delta, a);
    }
  }

  lemma ReleaseKeeps(s: State, t: nat, fails: bool)
    requires Inv(s) && t < |s.threads| && s.threads[t].pc.Release? && RunEnabled(s, s.threads[t])
    ensures Inv(StepRelease(s, t, fails))
  {
    var th := s.threads[t];
    var s' := StepRelease(s, t, fails);
    var x := th.pc.x;
    assert ThreadOk(th, |s.slots|);
    KeepThreads(s, s', t, s'.threads[t]);
    if !fails && s.slots[x].val == th.pc.target {
      CountAccounts(s, s', t, s'.threads[t], x, GivenBack(s.slots[x], th.era), -1);
    } else {
      KeepAccounts(s, s', t, s'.threads[t]);
    }
  }

  lemma AcquireThread(th: Thread, n: nat, val: Counted, era: nat, lin: int)
    requires ThreadOk(th, n) && th.pc.Acquire?
    ensures th.res.Null?
    ensures ThreadOk(th.(res := val.ptr, era := era, lin := lin, pc := Guarded(th.pc.op, val, th.pc.refreshed)), n)
  {
    GuardedFits(th.pc.op, val, th.pc.refreshed, n, th.held);
  }

  lemma AcquireChanges(s: State, s': State, t: nat, th': Thread, sl: Slot)
    requires t < |s.threads| && s.threads[t].pc.Acquire? && RunEnabled(s, s.threads[t])
    requires sl == s.slots[s.threads[t].pc.op.x] && sl.val == s.threads[t].pc.val && s' == StepAcquire(s, t, false)
    requires var th := s.threads[t];
      th' == th.(res := sl.val.ptr, era := sl.era, lin := s'.threads[t].lin,
                 pc := Guarded(th.pc.op, Reserved(sl).val, th.pc.refreshed))
    ensures s'.threads == s.threads[t := th'] && s'.slots == s.slots[s.threads[t].pc.op.x := Reserved(sl)]
    ensures s'.objs == s.objs
  {}

  lemma AcquireTakes(s: State, t: nat)
    requires Inv(s) && t < |s.threads| && s.threads[t].pc.Acquire? && RunEnabled(s, s.threads[t])
    requires s.slots[s.threads[t].pc.op.x].val == s.threads[t].pc.val
    ensures Inv(StepAcquire(s, t, false))
  {
    var th, s' := s.threads[t], StepAcquire(s, t, false);
    var x := th.pc.op.x;
    var sl, lin := s.slots[x], s'.threads[t].lin;
    assert ThreadOk(th, |s.slots|);
    AcquireThread(th, |s.slots|, Reserved(sl).val, sl.era, lin);
    var th' := th.(res := sl.val.ptr, era := sl.era, lin := lin,
                   pc := Guarded(th.pc.op, Reserved(sl).val, th.pc.refreshed));
    AcquireChanges(s, s', t, th', sl);
    KeepThreads(s, s', t, th');
    CountAccounts(s, s', t, th', x, Reserved(sl), 1);
  }

  lemma AcquireKeeps(s: State, t: nat, fails: bool)
    requires Inv(s) && t < |s.threads| && s.threads[t].pc.Acquire? && RunEnabled(s, s.threads[t])
    ensures Inv(StepAcquire(s, t, fails))
  {
    var th := s.threads[t];
    if !fails && s.slots[th.pc.op.x].val == th.pc.val {
      AcquireTakes(s, t);
    } else {
      assert ThreadOk(th, |s.slots|);
      PcKeeps(s, StepAcquire(s, t, fails), t, th.(pc := Acquire(th.pc.op, s.slots[th.pc.op.x].val, th.pc.refreshed)));
    }
  }

  /** Replacing a slot's value moves its strong reference and its access count to the thread. */
  lemma TakeClaim(was: Thread, th: Thread, sl: Slot, d: Ptr, a: nat, k: Claim)
    requires th.res == was.res && th.doom == was.doom && was.fold == NO_FOLD && Refs(d) <= was.held
    requires th.held == was.held - Refs(d) + Refs(sl.val.ptr)
    requires th.fold == if sl.val.ptr.Null? then NO_FOLD else sl.val
    ensures k == Change(Change(k, ThreadClaim(was, a), ThreadClaim(th, a)), SlotClaim(sl, a),
                        SlotClaim(Written(sl, d), a))
  {}

  lemma TakeAccounts(s: State, s': State, t: nat, th: Thread, x: nat, d: Ptr)
    requires Accounts(s)
    requires t < |s.threads| && x < |s.slots| && s'.objs == s.objs && s'.threads == s.threads[t := th]
    requires s'.slots == s.slots[x := Written(s.slots[x], d)]
    requires var was, v := s.threads[t], s.slots[x].val;
      && th.res == was.res && th.doom == was.doom && was.fold == NO_FOLD && Refs(d) <= was.held
      && th.held == was.held - Refs(d) + Refs(v.ptr) && th.fold == if v.ptr.Null? then NO_FOLD else v
    ensures Accounts(s')
  {
    forall a: nat ensures Account(s', a) {
      assert Account(s, a);
      RetotalSlot(s, s', t, th, x, Written(s.slots[x], d), a);
      TakeClaim(s.threads[t], th, s.slots[x], d, a, Total(s, a));
    }
  }

  lemma ExchangeThread(th: Thread, n: nat, cur: Counted, out: Outcome, keep: PC, lin: int)
    requires ThreadOk(th, n) && th.pc.Begin? && (th.pc.op.Store? || th.pc.op.Exchange?)
    requires var drop := DropOld(cur, Ret(th.pc.op, out));
      if th.pc.op.Store? then keep == drop && out == Stored else keep == Inc(cur.ptr, drop) && out == Got(cur.ptr)
    ensures ThreadOk(th.(held := th.held - Refs(th.pc.op.desired) + Refs(cur.ptr), lin := lin, pc := keep,
                         fold := if cur.ptr.Null? then NO_FOLD else cur), n)
  {
    var op := th.pc.op;
    var h := th.held - Refs(op.desired) + Refs(cur.ptr);
    if op.Store? {
      StoreFits(op, cur, n, h);
    } else {
      ExchangeFits(op, cur, n, h);
    }
  }

  lemma StoreFits(op: Op, cur: Counted, n: nat, held: multiset<nat>)
    requires Refs(cur.ptr) <= held
    ensures Fits(DropOld(cur, Ret(op, Stored)), n, held, Null, if cur.ptr.Null? then NO_FOLD else cur, Null)
  {
    DropFits(cur, Ret(op, Stored), n, held, Null);
  }

  lemma ExchangeFits(op: Op, cur: Counted, n: nat, held: multiset<nat>)
    requires Refs(cur.ptr) <= held
    ensures Fits(Inc(cur.ptr, DropOld(cur, Ret(op, Got(cur.ptr)))), n, held, Null,
                 if cur.ptr.Null? then NO_FOLD else cur, Null)
  {
    assert held + Refs(cur.ptr) - Refs(cur.ptr) == held;
    DropFits(cur, Ret(op, Got(cur.ptr)), n, held + Refs(cur.ptr), Null);
  }

  lemma ExchangeKeeps(s: State, t: nat)
    requires Inv(s) && t < |s.threads| && s.threads[t].pc.Begin? && RunEnabled(s, s.threads[t])
    requires s.threads[t].pc.op.Store? || s.threads[t].pc.op.Exchange?
    ensures Inv(StepBegin(s, t))
  {
    var th := s.threads[t];
    var s' := StepBegin(s, t);
    var op := th.pc.op;
    var cur := s.slots[op.x].val;
    assert ThreadOk(th, |s.slots|);
    ExchangeThread(th, |s.slots|, cur, if op.Store? then Stored else Got(cur.ptr), s'.threads[t].pc,
                   s'.threads[t].lin);
    KeepThreads(s, s', t, s'.threads[t]);
    TakeAccounts(s, s', t, s'.threads[t], op.x, op.desired);
  }

  lemma GuardKeeps(s: State, t: nat)
    requires Inv(s) && t < |s.threads| && s.threads[t].pc.Begin? && RunEnabled(s, s.threads[t])
    requires s.threads[t].pc.op.Load? || s.threads[t].pc.op.Cas?
    ensures Inv(StepBegin(s, t))
  {
    var th := s.threads[t];
    var s' := StepBegin(s, t);
    var op := th.pc.op;
    assert ThreadOk(th, |s.slots|);
    GuardFits(op, s.slots[op.x].val, false, |s.slots|, th.held);
    KeepThreads(s, s', t, s'.threads[t]);
    KeepAccounts(s, s', t, s'.threads[t]);
  }

  /** A successful swap leaves the caller's own references to `Finish`. */
  lemma SwappedNeeds(op: Op, held: multiset<nat>, left: multiset<nat>)
    requires op.Cas? && Needs(op) <= held && left == held - Refs(op.desired)
    ensures Refs(op.expected) <= left
    ensures op.strong ==> Refs(op.expected) + Refs(op.expected) + Refs(op.desired) <= left
  {}

  lemma SwappedFits(op: Op, val: Counted, n: nat, held: multiset<nat>)
    requires op.Cas? && op.x < n && Needs(op) <= held && val.ptr == op.expected
    ensures Fits(DropOld(val, ReleaseThen(op.x, val, Finish(op, Swapped))), n,
                 held - Refs(op.desired) + Refs(val.ptr), val.ptr, if val.ptr.Null? then NO_FOLD else val, Null)
  {
    var h := held - Refs(op.desired) + Refs(val.ptr);
    var h1 := h - Refs(val.ptr);
    SwappedNeeds(op, held, h1);
    FinishFits(op, Swapped, n, h1);
    ReleaseFits(op.x, val, Finish(op, Swapped), n, h1);
    DropFits(val, ReleaseThen(op.x, val, Finish(op, Swapped)), n, h, val.ptr);
  }

  lemma SwapThread(th: Thread, n: nat, cur: Counted, pc: PC, lin: int)
    requires ThreadOk(th, n) && th.pc.Swap?
    requires var op, val := th.pc.op, th.pc.val;
      pc == if cur.ptr == val.ptr then Fail(op, val.ptr, val) else ReleaseThen(op.x, val, Guard(op, cur, true))
    ensures ThreadOk(th.(pc := pc, lin := lin), n)
  {
    var op, val := th.pc.op, th.pc.val;
    FailFits(op, val.ptr, val, n, th.held);
    GuardFits(op, cur, true, n, th.held);
    ReleaseFits(op.x, val, Guard(op, cur, true), n, th.held);
  }

  lemma SwapTakes(s: State, t: nat)
    requires Inv(s) && t < |s.threads| && s.threads[t].pc.Swap? && RunEnabled(s, s.threads[t])
    requires s.slots[s.threads[t].pc.op.x].val == s.threads[t].pc.val
    ensures Inv(StepSwap(s, t, false))
  {
    var th, s' := s.threads[t], StepSwap(s, t, false);
    assert ThreadOk(th, |s.slots|);
    SwappedFits(th.pc.op, th.pc.val, |s.slots|, th.held);
    KeepThreads(s, s', t, s'.threads[t]);
    TakeAccounts(s, s', t, s'.threads[t], th.pc.op.x, th.pc.op.desired);
  }

  lemma SwapKeeps(s: State, t: nat, fails: bool)
    requires Inv(s) && t < |s.threads| && s.threads[t].pc.Swap? && RunEnabled(s, s.threads[t])
    ensures Inv(StepSwap(s, t, fails))
  {
    var th := s.threads[t];
    var cur := s.slots[th.pc.op.x].val;
    if !fails && cur == th.pc.val {
      SwapTakes(s, t);
    } else {
      var s' := StepSwap(s, t, fails);
      assert ThreadOk(th, |s.slots|);
      SwapThread(th, |s.slots|, cur, s'.threads[t].pc, s'.threads[t].lin);
      PcKeeps(s, s', t, s'.threads[t]);
    }
  }

  lemma RetKeeps(s: State, t: nat)
    requires Inv(s) && t < |s.threads| && s.threads[t].pc.Ret?
    ensures Inv(StepRet(s, t))
  {
    var s' := StepRet(s, t);
    assert ThreadOk(s.threads[t], |s.slots|);
    KeepThreads(s, s', t, s'.threads[t]);
    KeepAccounts(s, s', t, s'.threads[t]);
  }

  lemma RunKeeps(s: State, t: nat, fails: bool)
    requires Inv(s) && Bounded(s) && t < |s.threads| && RunEnabled(s, s.threads[t])
    ensures Inv(StepRun(s, t, fails))
  {
    match s.threads[t].pc
    case Inc(_, _) => IncKeeps(s, t);
    case Dec(_, _) => DecKeeps(s, t);
    case Delete(_) => DeleteKeeps(s, t);
    case AddExternal(_) => AddExternalKeeps(s, t);
    case RemoveExternal(_) => RemoveExternalKeeps(s, t);
    case Release(_, _, _) => ReleaseKeeps(s, t, fails);
    case Begin(op) => if op.Store? || op.Exchange? { ExchangeKeeps(s, t); } else { GuardKeeps(s, t); }
    case Acquire(_, _, _) => AcquireKeeps(s, t, fails);
    case Swap(_, _) => SwapKeeps(s, t, fails);
    case Ret(_, _) => RetKeeps(s, t);
    case Idle =>
  }

  // ---------------------------------------------------------------- the client's own steps

  lemma NothingClaimed(a: nat, k: Claim)
    ensures Plus(k, ThreadClaim(NEW_THREAD, a)) == k
  {}

  lemma SpawnTotal(s: State, a: nat)
    ensures Total(s.(threads := s.threads + [NEW_THREAD]), a) == Total(s, a)
  {
    ThreadSumPrefix(s.threads, |s.threads|, NEW_THREAD, a);
    NothingClaimed(a, ThreadSum(s.threads, |s.threads|, a));
  }

  lemma SpawnKeeps(s: State)
    requires Inv(s)
    ensures Inv(s.(threads := s.threads + [NEW_THREAD]))
  {
    var s' := s.(threads := s.threads + [NEW_THREAD]);
    forall a: nat ensures Account(s', a) {
      assert Account(s, a);
      SpawnTotal(s, a);
    }
    assert ThreadOk(NEW_THREAD, |s.slots|);
  }

  lemma PcKeeps(s: State, s': State, t: nat, th: Thread)
    requires Inv(s) && t < |s.threads| && s'.objs == s.objs && s'.slots == s.slots && s'.threads == s.threads[t := th]
    requires SameClaims(s.threads[t], th) && ThreadOk(th, |s.slots|)
    ensures Inv(s')
  {
    KeepAccounts(s, s', t, th);
    KeepThreads(s, s', t, th);
  }

  lemma StartFits(op: Op, n: nat, held: multiset<nat>)
    requires op.x < n && Given(op) <= held
    ensures Fits(Start(op), n, held, Null, NO_FOLD, Null)
  {
    if op.Cas? && op.strong {
      var h := held + Refs(op.expected) + Refs(op.desired);
      assert Needs(op) <= h;
      assert Fits(Begin(op), n, h, Null, NO_FOLD, Null);
      assert Fits(Inc(op.desired, Begin(op)), n, held + Refs(op.expected), Null, NO_FOLD, Null);
    }
  }

  lemma CopyKeeps(s: State, t: nat, a: nat)
    requires Inv(s) && Enabled(s, Copy(t, a))
    ensures Inv(Apply(s, Copy(t, a)))
  {
    assert ThreadOk(s.threads[t], |s.slots|);
    PcKeeps(s, Apply(s, Copy(t, a)), t, s.threads[t].(pc := Inc(At(a), Idle)));
  }

  lemma DropKeeps(s: State, t: nat, a: nat)
    requires Inv(s) && Enabled(s, Drop(t, a))
    ensures Inv(Apply(s, Drop(t, a)))
  {
    assert ThreadOk(s.threads[t], |s.slots|);
    PcKeeps(s, Apply(s, Drop(t, a)), t, s.threads[t].(pc := Dec(At(a), Idle)));
  }

  lemma CallKeeps(s: State, t: nat, op: Op)
    requires Inv(s) && Enabled(s, Call(t, op))
    ensures Inv(Apply(s, Call(t, op)))
  {
    assert ThreadOk(s.threads[t], |s.slots|);
    StartFits(op, |s.slots|, s.threads[t].held);
    PcKeeps(s, Apply(s, Call(t, op)), t, s.threads[t].(pc := Start(op), start := |s.hist|));
  }

  /** A reference passes from one thread to another. */
  lemma GiveClaims(th: Thread, th': Thread, uh: Thread, uh': Thread, p: nat, a: nat, k: Claim)
    requires p in th.held && th' == th.(held := th.held - multiset{p}) && uh' == uh.(held := uh.held + multiset{p})
    ensures Change(Change(k, ThreadClaim(th, a), ThreadClaim(th', a)), ThreadClaim(uh, a), ThreadClaim(uh', a)) == k
  {}

  lemma GiveTotal(s: State, t: nat, u: nat, p: nat, a: nat)
    requires Enabled(s, Give(t, u, p))
    ensures Total(Apply(s, Give(t, u, p)), a) == Total(s, a)
  {
    var th, uh := s.threads[t], s.threads[u];
    var th' := th.(held := th.held - multiset{p});
    var uh' := uh.(held := uh.held + multiset{p});
    Retotal(s, Put(s, t, th'), t, th', a);
    Retotal(Put(s, t, th'), Put(Put(s, t, th'), u, uh'), u, uh', a);
    GiveClaims(th, th', uh, uh', p, a, Total(s, a));
  }

  lemma GiveThreads(s: State, t: nat, u: nat, p: nat)
    requires Threads(s) && Enabled(s, Give(t, u, p))
    ensures Threads(Apply(s, Give(t, u, p)))
  {
    var th, uh := s.threads[t], s.threads[u];
    var held := uh.held + multiset{p};
    assert ThreadOk(th, |s.slots|) && ThreadOk(uh, |s.slots|);
    FitsMonotone(uh.pc, |s.slots|, |s.slots|, uh.held, held, uh.res, uh.fold, uh.doom);
    var s1 := Put(s, t, th.(held := th.held - multiset{p}));
    KeepThreads(s, s1, t, th.(held := th.held - multiset{p}));
    KeepThreads(s1, Put(s1, u, uh.(held := held)), u, uh.(held := held));
  }

  lemma GiveKeeps(s: State, t: nat, u: nat, p: nat)
    requires Inv(s) && Enabled(s, Give(t, u, p))
    ensures Inv(Apply(s, Give(t, u, p)))
  {
    GiveThreads(s, t, u, p);
    forall a: nat ensures Account(Apply(s, Give(t, u, p)), a) {
      assert Account(s, a);
      GiveTotal(s, t, u, p, a);
    }
  }

  lemma NewSettled(objs: map<nat, Counter>, p: nat, a: nat, k: Claim)
    requires p !in objs && Sound(k) && Settled(objs, a, k)
    ensures Settled(objs[p := Counter(1, 0, 0)], a, if a == p then k.(strong := k.strong + 1) else k)
  {}

  lemma NewTotal(s: State, t: nat, p: nat, a: nat)
    requires Enabled(s, New(t, p))
    ensures var k := Total(s, a);
      Total(Apply(s, New(t, p)), a) == if a == p then k.(strong := k.strong + 1) else k
  {
    var s', th := Apply(s, New(t, p)), s.threads[t];
    Retotal(s, s', t, th.(held := th.held + multiset{p}), a);
    IncClaim(th, th.(held := th.held + multiset{p}), p, a, Total(s, a));
  }

  lemma NewKeeps(s: State, t: nat, p: nat)
    requires Inv(s) && Enabled(s, New(t, p))
    ensures Inv(Apply(s, New(t, p)))
  {
    var s' := Apply(s, New(t, p));
    assert ThreadOk(s.threads[t], |s.slots|);
    KeepThreads(s, s', t, s'.threads[t]);
    forall a: nat ensures Account(s', a) {
      Bounds(s, t, 0, a);
      assert Account(s, a);
      NewTotal(s, t, p, a);
      NewSettled(s.objs, p, a, Total(s, a));
    }
  }

  lemma CreateClaims(was: Thread, th: Thread, p: Ptr, a: nat, k: Claim, j: Claim)
    requires Refs(p) <= was.held && th == was.(held := was.held - Refs(p))
    ensures Plus(Change(k, ThreadClaim(was, a), ThreadClaim(th, a)),
                 Plus(j, SlotClaim(Slot(Counted(p, 0), true, 0, 0), a))) == Plus(k, j)
  {}

  lemma CreateTotal(s: State, t: nat, p: Ptr, a: nat)
    requires Enabled(s, Create(t, p))
    ensures Total(Apply(s, Create(t, p)), a) == Total(s, a)
  {
    var th, sl := s.threads[t], Slot(Counted(p, 0), true, 0, 0);
    var th' := th.(held := th.held - Refs(p));
    ThreadSumUpdate(s.threads, |s.threads|, t, th', a);
    SlotSumPrefix(s.slots, |s.slots|, sl, a);
    CreateClaims(th, th', p, a, ThreadSum(s.threads, |s.threads|, a), SlotSum(s.slots, |s.slots|, a));
  }

  lemma CreateThreads(s: State, t: nat, p: Ptr)
    requires Threads(s) && Enabled(s, Create(t, p))
    ensures Threads(Apply(s, Create(t, p)))
  {
    var s' := Apply(s, Create(t, p));
    forall u | 0 <= u < |s'.threads| ensures ThreadOk(s'.threads[u], |s'.slots|) {
      var th := s.threads[u];
      assert ThreadOk(th, |s.slots|);
      if u != t {
        FitsMonotone(th.pc, |s.slots|, |s'.slots|, th.held, th.held, th.res, th.fold, th.doom);
      }
    }
  }

  lemma CreateKeeps(s: State, t: nat, p: Ptr)
    requires Inv(s) && Enabled(s, Create(t, p))
    ensures Inv(Apply(s, Create(t, p)))
  {
    CreateThreads(s, t, p);
    forall a: nat ensures Account(Apply(s, Create(t, p)), a) {
      assert Account(s, a);
      CreateTotal(s, t, p, a);
    }
  }

  /** The access count that the destructor drops becomes a debt of the object. */
  lemma DestroySettled(objs: map<nat, Counter>, val: Counted, a: nat, k: Claim)
    requires Settled(objs, a, k) && (val.ptr == At(a) ==> Sound(k) && k.strong >= 1)
    ensures Settled(Indebted(objs, val), a, if val.ptr == At(a) then k.(pend := k.pend - val.access) else k)
  {}

  lemma DestroyClaim(was: Thread, th: Thread, sl: Slot, era: nat, a: nat, k: Claim)
    requires th.held == was.held + Refs(sl.val.ptr) && th.res == was.res && th.fold == was.fold && th.doom == was.doom
    ensures Change(Change(k, ThreadClaim(was, a), ThreadClaim(th, a)),
                   SlotClaim(sl, a), SlotClaim(Slot(NO_FOLD, false, era, 0), a)) ==
            if sl.val.ptr == At(a) then k.(pend := k.pend - sl.val.access) else k
  {}

  lemma DestroyTotal(s: State, t: nat, x: nat, a: nat)
    requires t < |s.threads| && x < |s.slots|
    ensures var v, k := s.slots[x].val, Total(s, a);
      Total(StepDestroy(s, t, x), a) == if v.ptr == At(a) then k.(pend := k.pend - v.access) else k
  {
    var th, sl := s.threads[t], s.slots[x];
    var th' := th.(held := th.held + Refs(sl.val.ptr), pc := Dec(sl.val.ptr, Idle));
    RetotalSlot(s, StepDestroy(s, t, x), t, th', x, Slot(NO_FOLD, false, sl.era + 1, 0), a);
    DestroyClaim(th, th', sl, sl.era + 1, a, Total(s, a));
  }

  lemma DestroyKeeps(s: State, t: nat, x: nat)
    requires Inv(s) && Enabled(s, Destroy(t, x))
    ensures Inv(Apply(s, Destroy(t, x)))
  {
    var s' := StepDestroy(s, t, x);
    assert ThreadOk(s.threads[t], |s.slots|);
    KeepThreads(s, s', t, s'.threads[t]);
    forall a: nat ensures Account(s', a) {
      DestroyTotal(s, t, x, a);
      assert Account(s, a);
      Bounds(s, t, x, a);
      DestroySettled(s.objs, s.slots[x].val, a, Total(s, a));
    }
  }

  /** Every step keeps the invariant, whatever the other threads do in between. */
  lemma StepKeeps(s: State, act: Action)
    requires Inv(s) && Bounded(s) && Enabled(s, act)
    ensures Inv(Apply(s, act))
  {
    match act
    case Spawn => SpawnKeeps(s);
    case Copy(t, a) => CopyKeeps(s, t, a);
    case Drop(t, a) => DropKeeps(s, t, a);
    case Give(t, u, a) => GiveKeeps(s, t, u, a);
    case New(t, a) => NewKeeps(s, t, a);
    case Create(t, p) => CreateKeeps(s, t, p);
    case Destroy(t, x) => DestroyKeeps(s, t, x);
    case Call(t, op) => CallKeeps(s, t, op);
    case Run(t, fails) => RunKeeps(s, t, fails);
  }
}
