/**
 The split reference count of `atomic_shared_ptr` as a transition system.

 Any number of threads, slots and objects; every atomic operation on a slot or on an object's counter word is
 one step, and a weak compare-exchange may fail at any time.  A thread's program counter is a small program
 (`PC`) whose instructions are the atomic operations still to be performed.

 A thread carries four kinds of claims on objects: the strong references in its `intrusive_ptr` variables
 (`held`), the reservation of its `local_access` guard (`res`), an access count taken out of a slot but not yet
 added to the object (`fold`), and the duty to delete an object whose last reference it dropped (`doom`).

 Objects are known by address.  An address may be allocated again after its object is deleted, and a slot may
 hold the same address many times, so every form of ABA is a run of this system.
 */
module AtomicSharedPtr {

  const M: int := 0x1_0000_0000  // the external counter is a std::uint32_t

  datatype Ptr = Null | At(addr: nat)

  /** What a slot holds: a pointer and the access count of this incarnation of it. */
  datatype Counted = Counted(ptr: Ptr, access: int)

  /**
   `era` and `strays` are history variables: how often the slot was written, and how many reservations were given
   back to the present incarnation by guards that took them on an earlier one.
   */
  datatype Slot = Slot(val: Counted, alive: bool, era: nat, strays: nat)

  /**
   The counter word packed in one atomic of the object.  `debt` is a history variable: the access counts that
   destructors of slots dropped, negated, modulo 2^32.
   */
  datatype Counter = Counter(count: int, external: int, debt: int)

  datatype Op =
    | Load(x: nat)
    | Store(x: nat, desired: Ptr)
    | Exchange(x: nat, desired: Ptr)
    | Cas(x: nat, expected: Ptr, desired: Ptr, strong: bool)

  datatype Outcome = Got(p: Ptr) | Stored | Swapped | Failed(actual: Ptr)

  datatype PC =
    | Idle
    | Inc(p: Ptr, next: PC)                           // add a strong reference, unless null
    | Dec(p: Ptr, next: PC)                           // drop a strong reference, unless null
    | Delete(next: PC)                                // delete the doomed object
    | AddExternal(next: PC)                           // fold a taken access count into the object
    | Release(x: nat, target: Counted, next: PC)      // the guard gives its reservation back to the slot ...
    | RemoveExternal(next: PC)                        // ... or, the slot having changed, to the object
    | Begin(op: Op)                                   // first access to the slot
    | Acquire(op: Op, val: Counted, refreshed: bool)  // the guard's reservation loop
    | Swap(op: Op, val: Counted)                      // the compare-exchange on the slot itself
    | Ret(op: Op, out: Outcome)

  /**
   `era`, `start` and `lin` are history variables: the slot's era when the reservation was taken, the length of the
   history at the call, and the call's event.
   */
  datatype Thread = Thread(held: multiset<nat>, res: Ptr, fold: Counted, doom: Ptr, pc: PC, era: nat,
                           calls: nat, start: nat, lin: int)

  /** The history: one event per operation, in the order in which the operations took effect. */
  datatype Event = Created(x: nat, p: Ptr) | Destroyed(x: nat) | Did(t: nat, call: nat, op: Op, out: Outcome)

  datatype Completed = Completed(t: nat, call: nat, op: Op, out: Outcome, start: nat, lin: int, end: nat)

  datatype State = State(objs: map<nat, Counter>, slots: seq<Slot>, threads: seq<Thread>,
                         hist: seq<Event>, done: seq<Completed>)

  const NO_FOLD := Counted(Null, 0)
  const NEW_THREAD := Thread(multiset{}, Null, NO_FOLD, Null, Idle, 0, 0, 0, -1)
  const INIT := State(map[], [], [], [], [])

  // ---------------------------------------------------------------- programs of the operations

  function Refs(p: Ptr): multiset<nat> {
    if p.Null? then multiset{} else multiset{p.addr}
  }

  function ReleaseThen(x: nat, val: Counted, next: PC): PC {
    if val.ptr.Null? then next else Release(x, val, next)
  }

  /** The tail of store, exchange and a successful compare-exchange: reconcile and release the old value. */
  function DropOld(was: Counted, next: PC): PC {
    if was.ptr.Null? then next else AddExternal(Dec(was.ptr, next))
  }

  /** After one weak attempt: compare_exchange_strong goes round again on a failure that saw `expected`. */
  function Finish(op: Op, out: Outcome): PC {
    if op.Cas? && op.strong then
      if out == Failed(op.expected) then Inc(op.desired, Begin(op))
      else Dec(op.expected, Dec(op.desired, Ret(op, out)))
    else Ret(op, out)
  }

  /** expected = guard.get_shared_ptr(), then the guard and the unused copy of `desired` go out of scope. */
  function Fail(op: Op, v: Ptr, val: Counted): PC
    requires op.Cas?
  {
    Inc(v, Dec(op.expected, ReleaseThen(op.x, val, Dec(op.desired, Finish(op, Failed(v))))))
  }

  /** What the operation decides once its guard holds `val`, if anything. */
  function Verdict(op: Op, p: Ptr, refreshed: bool): (out: seq<Outcome>) {
    match op
    case Load(_) => [Got(p)]
    case Cas(_, e, d, _) => if refreshed || p != e then [Failed(p)] else if d == e then [Swapped] else []
    case _ => []
  }

  function Guarded(op: Op, val: Counted, refreshed: bool): PC
    requires op.Load? || op.Cas?
  {
    if op.Load? then Inc(val.ptr, ReleaseThen(op.x, val, Ret(op, Got(val.ptr))))
    else if refreshed || val.ptr != op.expected then Fail(op, val.ptr, val)
    else if op.desired == op.expected then ReleaseThen(op.x, val, Dec(op.desired, Finish(op, Swapped)))
    else Swap(op, val)
  }

  /** m_val = cur, then acquire: null is tested here only, before the loop. */
  function Guard(op: Op, cur: Counted, refreshed: bool): PC
    requires op.Load? || op.Cas?
  {
    if cur.ptr.Null? then Guarded(op, cur, refreshed) else Acquire(op, cur, refreshed)
  }

  /** The operation's event, unless the strong form is about to retry. */
  function Events(t: nat, call: nat, op: Op, outs: seq<Outcome>): seq<Event> {
    if |outs| == 0 || (op.Cas? && op.strong && outs[0] == Failed(op.expected)) then []
    else [Did(t, call, op, outs[0])]
  }

  // ---------------------------------------------------------------- steps

  datatype Action =
    | Spawn
    | Copy(t: nat, a: nat)
    | Drop(t: nat, a: nat)
    | Give(t: nat, u: nat, a: nat)
    | New(t: nat, a: nat)
    | Create(t: nat, p: Ptr)
    | Destroy(t: nat, x: nat)
    | Call(t: nat, op: Op)
    | Run(t: nat, fails: bool)  // one atomic operation; `fails`: a weak compare-exchange failed

  function U32(n: int): (r: int)
    ensures 0 <= r < M
  { n % M }

  predicate Mentions(pc: PC, x: nat) {
    match pc
    case Idle => false
    case Inc(_, n) => Mentions(n, x)
    case Dec(_, n) => Mentions(n, x)
    case Delete(n) => Mentions(n, x)
    case AddExternal(n) => Mentions(n, x)
    case RemoveExternal(n) => Mentions(n, x)
    case Release(y, _, n) => x == y || Mentions(n, x)
    case Begin(op) => op.x == x
    case Acquire(op, _, _) => op.x == x
    case Swap(op, _) => op.x == x
    case Ret(_, _) => false
  }

  /** The references the caller hands to an operation. */
  function Given(op: Op): multiset<nat> {
    match op
    case Load(_) => multiset{}
    case Store(_, d) => Refs(d)
    case Exchange(_, d) => Refs(d)
    case Cas(_, e, d, _) => Refs(e) + Refs(d)
  }

  ghost predicate Enabled(s: State, act: Action) {
    if act.Spawn? then true
    else
      && act.t < |s.threads|
      && var th := s.threads[act.t];
      match act
      case Copy(_, a) => th.pc.Idle? && a in th.held
      case Drop(_, a) => th.pc.Idle? && a in th.held
      case Give(_, u, a) => th.pc.Idle? && a in th.held && u < |s.threads| && u != act.t
      case New(_, a) => th.pc.Idle? && a !in s.objs
      case Create(_, p) => th.pc.Idle? && Refs(p) <= th.held
      case Destroy(_, x) =>
        && th.pc.Idle? && x < |s.slots| && s.slots[x].alive
        && forall u :: 0 <= u < |s.threads| ==> !Mentions(s.threads[u].pc, x)
      case Call(_, op) => th.pc.Idle? && op.x < |s.slots| && s.slots[op.x].alive && Given(op) <= th.held
      case Run(_, _) => RunEnabled(s, th)
  }

  /** Facts of well-formed programs that let a step be taken; `Inv` has them for every thread. */
  ghost predicate RunEnabled(s: State, th: Thread) {
    match th.pc
    case Idle => false
    case Inc(p, _) => p.At? ==> p.addr in s.objs
    case Dec(p, _) => p.At? ==> p.addr in s.objs && p.addr in th.held
    case Delete(_) => th.doom.At? && th.doom.addr in s.objs
    case AddExternal(_) => th.fold.ptr.At? && th.fold.ptr.addr in s.objs
    case RemoveExternal(_) => th.res.At? && th.res.addr in s.objs
    case Release(x, _, _) => x < |s.slots|
    case Begin(op) => op.x < |s.slots| && (op.Store? || op.Exchange? ==> Refs(op.desired) <= th.held)
    case Acquire(op, _, _) => op.x < |s.slots| && (op.Load? || op.Cas?)
    case Swap(op, _) => op.x < |s.slots| && op.Cas? && Refs(op.desired) <= th.held
    case Ret(_, _) => true
  }

  function Put(s: State, t: nat, th: Thread): State
    requires t < |s.threads|
  {
    s.(threads := s.threads[t := th])
  }

  function SetSlot(s: State, x: nat, sl: Slot): State
    requires x < |s.slots|
  {
    s.(slots := s.slots[x := sl])
  }

  /** A reservation taken on the slot. */
  function Reserved(sl: Slot): Slot {
    sl.(val := sl.val.(access := sl.val.access + 1))
  }

  /** A reservation taken in some era given back to the slot. */
  function GivenBack(sl: Slot, era: nat): Slot {
    sl.(val := sl.val.(access := sl.val.access - 1), strays := if era == sl.era then sl.strays else sl.strays + 1)
  }

  /** A new incarnation. */
  function Written(sl: Slot, p: Ptr): Slot {
    sl.(val := Counted(p, 0), era := sl.era + 1, strays := 0)
  }

  function Log(s: State, es: seq<Event>): State {
    s.(hist := s.hist + es)
  }

  /** The thread after its event, if any, was added to a history of length n. */
  function Linearized(th: Thread, n: nat, es: seq<Event>): Thread {
    if |es| == 0 then th else th.(lin := n)
  }

  /** inc_count */
  function StepInc(s: State, t: nat): State
    requires t < |s.threads| && s.threads[t].pc.Inc?
    requires s.threads[t].pc.p.At? ==> s.threads[t].pc.p.addr in s.objs
  {
    var th := s.threads[t];
    var p := th.pc.p;
    if p.Null? then Put(s, t, th.(pc := th.pc.next))
    else
      var c := s.objs[p.addr];
      Put(s.(objs := s.objs[p.addr := c.(count := c.count + 1)]), t,
          th.(pc := th.pc.next, held := th.held + multiset{p.addr}))
  }

  /** dec_count: the deletion is decided on the word that was replaced. */
  function StepDec(s: State, t: nat): State
    requires t < |s.threads| && s.threads[t].pc.Dec?
    requires s.threads[t].pc.p.At? ==> s.threads[t].pc.p.addr in s.objs
  {
    var th := s.threads[t];
    var p := th.pc.p;
    if p.Null? then Put(s, t, th.(pc := th.pc.next))
    else
      var c := s.objs[p.addr];
      var s1 := s.(objs := s.objs[p.addr := c.(count := c.count - 1)]);
      var th1 := th.(held := th.held - multiset{p.addr});
      if c.count == 1 && c.external == 0 then Put(s1, t, th1.(doom := p, pc := Delete(th.pc.next)))
      else Put(s1, t, th1.(pc := th.pc.next))
  }

  function StepDelete(s: State, t: nat): State
    requires t < |s.threads| && s.threads[t].pc.Delete? && s.threads[t].doom.At?
  {
    var th := s.threads[t];
    Put(s.(objs := s.objs - {th.doom.addr}), t, th.(doom := Null, pc := th.pc.next))
  }

  /** add_external_counters: a signed displacement narrowed to 32 bits and added with wrap-around. */
  function StepAddExternal(s: State, t: nat): State
    requires t < |s.threads| && s.threads[t].pc.AddExternal?
    requires s.threads[t].fold.ptr.At? && s.threads[t].fold.ptr.addr in s.objs
  {
    var th := s.threads[t];
    var c := s.objs[th.fold.ptr.addr];
    Put(s.(objs := s.objs[th.fold.ptr.addr := c.(external := U32(c.external + U32(th.fold.access)))]), t,
        th.(fold := NO_FOLD, pc := th.pc.next))
  }

  /** remove_external_counter */
  function StepRemoveExternal(s: State, t: nat): State
    requires t < |s.threads| && s.threads[t].pc.RemoveExternal?
    requires s.threads[t].res.At? && s.threads[t].res.addr in s.objs
  {
    var th := s.threads[t];
    var c := s.objs[th.res.addr];
    var s1 := s.(objs := s.objs[th.res.addr := c.(external := U32(c.external - 1))]);
    if c.count == 0 && c.external == 1 then Put(s1, t, th.(res := Null, doom := th.res, pc := Delete(th.pc.next)))
    else Put(s1, t, th.(res := Null, pc := th.pc.next))
  }

  /** local_access::release */
  function StepRelease(s: State, t: nat, fails: bool): State
    requires t < |s.threads| && s.threads[t].pc.Release? && s.threads[t].pc.x < |s.slots|
  {
    var th := s.threads[t];
    var cur := s.slots[th.pc.x].val;
    if !fails && cur == th.pc.target then
      Put(SetSlot(s, th.pc.x, GivenBack(s.slots[th.pc.x], th.era)), t, th.(res := Null, pc := th.pc.next))
    else if cur.ptr == th.res then Put(s, t, th.(pc := Release(th.pc.x, cur, th.pc.next)))
    else Put(s, t, th.(pc := RemoveExternal(th.pc.next)))
  }

  /** The exchange of store and exchange, or the guard's first load. */
  function StepBegin(s: State, t: nat): State
    requires t < |s.threads| && s.threads[t].pc.Begin? && s.threads[t].pc.op.x < |s.slots|
  {
    var th := s.threads[t];
    var op := th.pc.op;
    var cur := s.slots[op.x].val;
    if op.Store? || op.Exchange? then
      var out := if op.Store? then Stored else Got(cur.ptr);
      var es := Events(t, th.calls, op, [out]);
      var keep := if op.Exchange? then Inc(cur.ptr, DropOld(cur, Ret(op, out))) else DropOld(cur, Ret(op, out));
      Log(Put(SetSlot(s, op.x, Written(s.slots[op.x], op.desired)), t,
              Linearized(th.(held := th.held - Refs(op.desired) + Refs(cur.ptr),
                             fold := if cur.ptr.Null? then NO_FOLD else cur, pc := keep), |s.hist|, es)), es)
    else
      var es := if cur.ptr.Null? then Events(t, th.calls, op, Verdict(op, Null, false)) else [];
      Log(Put(s, t, Linearized(th.(pc := Guard(op, cur, false)), |s.hist|, es)), es)
  }

  /** One turn of local_access::acquire */
  function StepAcquire(s: State, t: nat, fails: bool): State
    requires t < |s.threads| && s.threads[t].pc.Acquire?
    requires var op := s.threads[t].pc.op; op.x < |s.slots| && (op.Load? || op.Cas?)
  {
    var th := s.threads[t];
    var op := th.pc.op;
    var cur := s.slots[op.x].val;
    if !fails && cur == th.pc.val then
      var val := cur.(access := cur.access + 1);
      var es := Events(t, th.calls, op, Verdict(op, cur.ptr, th.pc.refreshed));
      Log(Put(SetSlot(s, op.x, Reserved(s.slots[op.x])), t,
              Linearized(th.(res := cur.ptr, era := s.slots[op.x].era, pc := Guarded(op, val, th.pc.refreshed)),
                         |s.hist|, es)), es)
    else Put(s, t, th.(pc := Acquire(op, cur, th.pc.refreshed)))
  }

  /** compare_exchange_weak's own compare-exchange, with the refresh of the guard when it fails. */
  function StepSwap(s: State, t: nat, fails: bool): State
    requires t < |s.threads| && s.threads[t].pc.Swap?
    requires s.threads[t].pc.op.Cas? && s.threads[t].pc.op.x < |s.slots|
  {
    var th := s.threads[t];
    var op, val := th.pc.op, th.pc.val;
    var cur := s.slots[op.x].val;
    if !fails && cur == val then
      var es := Events(t, th.calls, op, [Swapped]);
      Log(Put(SetSlot(s, op.x, Written(s.slots[op.x], op.desired)), t,
              Linearized(th.(held := th.held - Refs(op.desired) + Refs(cur.ptr),
                             fold := if cur.ptr.Null? then NO_FOLD else cur,
                             pc := DropOld(cur, ReleaseThen(op.x, val, Finish(op, Swapped)))), |s.hist|, es)), es)
    else
      var es := if cur.ptr == val.ptr || cur.ptr.Null? then Events(t, th.calls, op, [Failed(cur.ptr)]) else [];
      var pc := if cur.ptr == val.ptr then Fail(op, val.ptr, val)
                else ReleaseThen(op.x, val, Guard(op, cur, true));
      Log(Put(s, t, Linearized(th.(pc := pc), |s.hist|, es)), es)
  }

  /** The call returns; the record of it is kept for the linearizability theorem. */
  function StepRet(s: State, t: nat): State
    requires t < |s.threads| && s.threads[t].pc.Ret?
  {
    var th := s.threads[t];
    var rec := Completed(t, th.calls, th.pc.op, th.pc.out, th.start, th.lin, |s.hist|);
    Put(s, t, th.(pc := Idle, calls := th.calls + 1, lin := -1)).(done := s.done + [rec])
  }

  /** The counter words are updated by weak compare-exchange loops: a failed turn changes nothing. */
  function StepRun(s: State, t: nat, fails: bool): State
    requires t < |s.threads| && RunEnabled(s, s.threads[t])
  {
    var pc := s.threads[t].pc;
    match pc
    case Inc(_, _) => if fails then s else StepInc(s, t)
    case Dec(_, _) => if fails then s else StepDec(s, t)
    case Delete(_) => StepDelete(s, t)
    case AddExternal(_) => if fails then s else StepAddExternal(s, t)
    case RemoveExternal(_) => if fails then s else StepRemoveExternal(s, t)
    case Release(_, _, _) => StepRelease(s, t, fails)
    case Begin(_) => StepBegin(s, t)
    case Acquire(_, _, _) => StepAcquire(s, t, fails)
    case Swap(_, _) => StepSwap(s, t, fails)
    case Ret(_, _) => StepRet(s, t)
    case Idle => s
  }

  /** compare_exchange_strong first copies `expected`, and copies `desired` into every weak attempt. */
  function Start(op: Op): PC {
    if op.Cas? && op.strong then Inc(op.expected, Inc(op.desired, Begin(op))) else Begin(op)
  }

  /**
   The destructor moves the slot's reference out and drops it; it does not fold the access count, which is added to
   the object's debt.
   */
  function StepDestroy(s: State, t: nat, x: nat): State
    requires t < |s.threads| && x < |s.slots|
  {
    var th, sl := s.threads[t], s.slots[x];
    var p := sl.val.ptr;
    Log(Put(s.(slots := s.slots[x := Slot(NO_FOLD, false, sl.era + 1, 0)], objs := Indebted(s.objs, sl.val)), t,
            th.(held := th.held + Refs(p), pc := Dec(p, Idle))), [Destroyed(x)])
  }

  function Indebted(objs: map<nat, Counter>, val: Counted): map<nat, Counter> {
    if val.ptr.At? && val.ptr.addr in objs then
      var c := objs[val.ptr.addr];
      objs[val.ptr.addr := c.(debt := U32(c.debt - val.access))]
    else objs
  }

  function Apply(s: State, act: Action): State
    requires Enabled(s, act)
  {
    match act
    case Spawn => s.(threads := s.threads + [NEW_THREAD])
    case Copy(t, a) => Put(s, t, s.threads[t].(pc := Inc(At(a), Idle)))
    case Drop(t, a) => Put(s, t, s.threads[t].(pc := Dec(At(a), Idle)))
    case Give(t, u, a) =>
      var s1 := Put(s, t, s.threads[t].(held := s.threads[t].held - multiset{a}));
      Put(s1, u, s.threads[u].(held := s.threads[u].held + multiset{a}))
    case New(t, a) =>
      Put(s.(objs := s.objs[a := Counter(1, 0, 0)]), t, s.threads[t].(held := s.threads[t].held + multiset{a}))
    case Create(t, p) =>
      Log(Put(s.(slots := s.slots + [Slot(Counted(p, 0), true, 0, 0)]), t,
              s.threads[t].(held := s.threads[t].held - Refs(p))), [Created(|s.slots|, p)])
    case Destroy(t, x) => StepDestroy(s, t, x)
    case Call(t, op) => Put(s, t, s.threads[t].(pc := Start(op), start := |s.hist|))
    case Run(t, fails) => StepRun(s, t, fails)
  }
}
