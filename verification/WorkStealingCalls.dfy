/**
 Calls of the work-stealing deque: between its start and its return every push, every pop and every steal that takes
 something has exactly one event in the history, with the value it returns.  With `ExactlyOnce` this makes the history
 a linearization.
 */
module WorkStealingCalls {
  import opened WorkStealingDeque
  import opened WorkStealingProofs
  import opened Wrappers

  /** The events of the owner's calls. */
  function OwnersPart<T>(h: seq<Event<T>>): seq<Event<T>> {
    if h == [] then []
    else OwnersPart(h[..|h| - 1]) + if h[|h| - 1].Stolen? then [] else [h[|h| - 1]]
  }

  /** What thief i stole. */
  function ThiefsPart<T>(h: seq<Event<T>>, i: nat): seq<Option<T>> {
    if h == [] then []
    else
      var e := h[|h| - 1];
      ThiefsPart(h[..|h| - 1], i) + if e.Stolen? && e.thief == i then [e.out] else []
  }

  lemma Parts<T>(h: seq<Event<T>>, e: Event<T>, i: nat)
    ensures OwnersPart(h + [e]) == OwnersPart(h) + if e.Stolen? then [] else [e]
    ensures ThiefsPart(h + [e], i) == ThiefsPart(h, i) + if e.Stolen? && e.thief == i then [e.out] else []
  {
    assert (h + [e])[..|h|] == h;
  }

  // ---------------------------------------------------------------- the owner

  /**
   A call that has not returned, where the owner's events are those of `base` and its own, if it took effect already;
   `owed` is then its result.
   */
  ghost predicate UnderWay<T>(call: Action<T>, owner: Owner<T>, base: seq<Event<T>>, events: seq<Event<T>>,
                              owed: seq<Option<T>>)
  {
    match owner
    case Idle => false
    case PushTop(v, _) => call == Push(v) && events == base
    case PushStorage(v, _, _) => call == Push(v) && events == base
    case PushGrown(v, _, _) => call == Push(v) && events == base
    case PushStore(v, _) => call == Push(v) && events == base
    case PushBottom(v, _) => call == Push(v) && events == base
    case _ =>
      call == Pop && if owed == [] then events == base else owed == [owed[0]] && events == base + [Popped(owed[0])]
  }

  /** A push or pop has returned: its event, and the result of a pop behind the results of earlier ones. */
  ghost predicate Finished<T>(call: Action<T>, base: seq<Event<T>>, events: seq<Event<T>>, pops: seq<Option<T>>,
                              pops': seq<Option<T>>)
  {
    if call.Push? then events == base + [Pushed(call.v)] && pops' == pops
    else |pops'| == |pops| + 1 && pops' == pops + [pops'[|pops|]] && events == base + [Popped(pops'[|pops|])]
  }

  /** Where the owner's call is in state s. */
  ghost predicate Reached<T>(call: Action<T>, base: seq<Event<T>>, pops: seq<Option<T>>, s: State<T>)
    requires Inv(s)
  {
    if s.owner.Idle? then Finished(call, base, OwnersPart(s.record.hist), pops, s.record.pops)
    else s.record.pops == pops && UnderWay(call, s.owner, base, OwnersPart(s.record.hist), Owed(s))
  }

  /** The pop that takes effect now owes the value of its event. */
  lemma OwedIsNewest<T>(r: Log<T>, size: int, e: Event<T>, size': int, owed: seq<Option<T>>)
    requires Recorded(r, size, []) && e.Popped? && Recorded(r.Effect(e), size', owed)
    ensures owed == [e.out]
  {
    var h := r.hist + [e];
    assert h[..|r.hist|] == r.hist;
    assert PopsOf(h) == PopsOf(r.hist) + [e.out];
    assert r.pops + owed == r.pops + [e.out];
    assert (r.pops + owed)[|r.pops|..] == owed && (r.pops + [e.out])[|r.pops|..] == [e.out];
  }

  /** A pop takes effect. */
  lemma PopsNow<T>(call: Action<T>, base: seq<Event<T>>, pops: seq<Option<T>>, s: State<T>, s': State<T>, e: Event<T>)
    requires Inv(s) && Inv(s') && Reached(call, base, pops, s) && e.Popped? && s'.record == s.record.Effect(e)
    requires (s.owner.PopTop? || s.owner.PopRace?) && (s'.owner.PopLoad? || s'.owner.PopRestore?)
    ensures Reached(call, base, pops, s')
  {
    Parts(s.record.hist, e, 0);
    OwedIsNewest(s.record, End(s) - s.top, e, End(s') - s'.top, Owed(s'));
  }

  lemma OwnerGoesOn<T>(call: Action<T>, base: seq<Event<T>>, pops: seq<Option<T>>, s: State<T>)
    requires Inv(s) && Reached(call, base, pops, s) && Enabled(s, OwnerStep)
    ensures Inv(StepOwner(s)) && Reached(call, base, pops, StepOwner(s))
  {
    var s' := StepOwner(s);
    OwnerKeeps(s);
    match s.owner
    case PushBottom(v, _) => PushesNow(call, base, pops, s);
    case PopTop(b) =>
      if s.top < b {
        PopsNow(call, base, pops, s, s', Popped(Newest(s.record.hist)));
      } else if s.top > b {
        PopsNow(call, base, pops, s, s', Popped(None));
      } else {
        PopGoesOn(call, base, pops, s);
      }
    case PopClaim(_) => PopGoesOn(call, base, pops, s);
    case PopLoad(_, last) => if last { PopGoesOn(call, base, pops, s); } else { PopEnds(call, base, pops, s); }
    case PopRestore(_, _) => PopEnds(call, base, pops, s);
    case PopRace(b, _) =>
      PopsNow(call, base, pops, s, s', Popped(if s.top == b then Newest(s.record.hist) else None));
    case _ => PushGoesOn(call, base, pops, s);
  }

  lemma PushesNow<T>(call: Action<T>, base: seq<Event<T>>, pops: seq<Option<T>>, s: State<T>)
    requires Inv(s) && Reached(call, base, pops, s) && s.owner.PushBottom? && Enabled(s, OwnerStep)
    requires Inv(StepOwner(s))
    ensures Reached(call, base, pops, StepOwner(s))
  {
    Parts(s.record.hist, Pushed(s.owner.v), 0);
  }

  lemma PushGoesOn<T>(call: Action<T>, base: seq<Event<T>>, pops: seq<Option<T>>, s: State<T>)
    requires Inv(s) && Reached(call, base, pops, s) && Enabled(s, OwnerStep) && Inv(StepOwner(s))
    requires s.owner.PushTop? || s.owner.PushStorage? || s.owner.PushGrown? || s.owner.PushStore?
    ensures Reached(call, base, pops, StepOwner(s))
  {}

  /** A step of a pop that neither takes effect nor returns. */
  lemma PopGoesOn<T>(call: Action<T>, base: seq<Event<T>>, pops: seq<Option<T>>, s: State<T>)
    requires Inv(s) && Reached(call, base, pops, s) && Enabled(s, OwnerStep) && Inv(StepOwner(s))
    requires s.owner.PopClaim? || (s.owner.PopTop? && s.top == s.owner.b) || (s.owner.PopLoad? && s.owner.last)
    ensures Reached(call, base, pops, StepOwner(s))
  {
    assert Owed(s) == [] && Owed(StepOwner(s)) == [];
  }

  lemma PopEnds<T>(call: Action<T>, base: seq<Event<T>>, pops: seq<Option<T>>, s: State<T>)
    requires Inv(s) && Reached(call, base, pops, s) && Enabled(s, OwnerStep) && Inv(StepOwner(s))
    requires s.owner.PopRestore? || (s.owner.PopLoad? && !s.owner.last)
    ensures Reached(call, base, pops, StepOwner(s))
  {
    assert |Owed(s)| == 1 && StepOwner(s).record.pops == pops + Owed(s);
  }

  /** Thieves neither make nor delay events of the owner. */
  lemma OthersGoOn<T>(call: Action<T>, base: seq<Event<T>>, pops: seq<Option<T>>, s: State<T>, a: Action<T>)
    requires Inv(s) && Reached(call, base, pops, s) && Enabled(s, a) && (a.Join? || a.Steal? || a.ThiefStep?)
    ensures Inv(Apply(s, a)) && Reached(call, base, pops, Apply(s, a))
  {
    StepKeeps(s, a);
    ThievesOnly(s, a);
    SameOwner(call, base, pops, s, Apply(s, a));
  }

  lemma ThievesOnly<T>(s: State<T>, a: Action<T>)
    requires Enabled(s, a) && (a.Join? || a.Steal? || a.ThiefStep?)
    ensures var s' := Apply(s, a);
      && s'.owner == s.owner && s'.rings == s.rings && s'.record.pops == s.record.pops
      && OwnersPart(s'.record.hist) == OwnersPart(s.record.hist)
  {
    if a.ThiefStep? && Apply(s, a).record != s.record {
      Parts(s.record.hist, Stolen(a.i, Oldest(s.record.hist)), 0);
    }
  }

  lemma SameOwner<T>(call: Action<T>, base: seq<Event<T>>, pops: seq<Option<T>>, s: State<T>, s': State<T>)
    requires Inv(s) && Inv(s') && Reached(call, base, pops, s)
    requires s'.owner == s.owner && s'.rings == s.rings && s'.record.pops == s.record.pops
    requires OwnersPart(s'.record.hist) == OwnersPart(s.record.hist)
    ensures Reached(call, base, pops, s')
  {
    assert Owed(s') == Owed(s);
  }

  /** The owner is in one call until the end of the run, and returns there. */
  ghost predicate OneCall<T>(s: State<T>, run: seq<Action<T>>)
    requires Allowed(s, run)
    decreases |run|
  {
    if run == [] then s.owner.Idle? else !s.owner.Idle? && OneCall(Apply(s, run[0]), run[1..])
  }

  lemma {:induction false} CallEnds<T>(call: Action<T>, base: seq<Event<T>>, pops: seq<Option<T>>, s: State<T>,
                                       run: seq<Action<T>>)
    requires Inv(s) && Allowed(s, run) && OneCall(s, run) && Reached(call, base, pops, s)
    ensures Finished(call, base, OwnersPart(Exec(s, run).record.hist), pops, Exec(s, run).record.pops)
    decreases |run|
  {
    if run != [] {
      if run[0].OwnerStep? {
        OwnerGoesOn(call, base, pops, s);
      } else {
        OthersGoOn(call, base, pops, s, run[0]);
      }
      CallEnds(call, base, pops, Apply(s, run[0]), run[1..]);
    }
  }

  lemma {:induction false} HistoryGrows<T>(s: State<T>, run: seq<Action<T>>)
    requires Allowed(s, run)
    ensures s.record.hist <= Exec(s, run).record.hist
    decreases |run|
  {
    if run != [] {
      HistoryGrows(Apply(s, run[0]), run[1..]);
    }
  }

  /**
   Between the start of a push or a pop and its return, with any steps of thieves in between, the owner has exactly one
   event: the push of that value, or a pop with the value returned.
   */
  lemma OwnerCall<T>(s: State<T>, call: Action<T>, run: seq<Action<T>>)
    requires Inv(s) && (call.Push? || call.Pop?) && Enabled(s, call)
    requires Allowed(Apply(s, call), run) && OneCall(Apply(s, call), run)
    ensures s.record.hist <= Exec(Apply(s, call), run).record.hist
    ensures var r := Exec(Apply(s, call), run).record;
      Finished(call, OwnersPart(s.record.hist), OwnersPart(r.hist), s.record.pops, r.pops)
  {
    StepKeeps(s, call);
    assert Owed(Apply(s, call)) == [];
    HistoryGrows(Apply(s, call), run);
    CallEnds(call, OwnersPart(s.record.hist), s.record.pops, Apply(s, call), run);
  }

  // ---------------------------------------------------------------- thieves

  /** Thief i is in one call until the end of the run, and returns there. */
  ghost predicate OneSteal<T>(s: State<T>, i: nat, run: seq<Action<T>>)
    requires Allowed(s, run)
    decreases |run|
  {
    && i < |s.thieves|
    && if run == [] then s.thieves[i].Away? else !s.thieves[i].Away? && OneSteal(Apply(s, run[0]), i, run[1..])
  }

  /** Thief i has returned: the call added the item returned to its events, and no event if it returned nothing. */
  ghost predicate Stole<T>(base: seq<Option<T>>, i: nat, s: State<T>) {
    && i < |s.thieves| && s.thieves[i].Away?
    && var out := s.thieves[i].last;
       if out.None? then ThiefsPart(s.record.hist, i) == base
       else
         && ThiefsPart(s.record.hist, i) == base + [out]
         && s.record.steals != [] && s.record.steals[|s.record.steals| - 1] == out
  }

  /** A step that is not this thief's winning one is no event of it. */
  lemma NoTheft<T>(s: State<T>, i: nat, a: Action<T>)
    requires Enabled(s, a) && !(a.ThiefStep? && a.i == i && s.thieves[i].StealRace? && s.thieves[i].t == s.top)
    ensures ThiefsPart(Apply(s, a).record.hist, i) == ThiefsPart(s.record.hist, i)
  {
    var s' := Apply(s, a);
    if s'.record.hist != s.record.hist {
      var e := s'.record.hist[|s.record.hist|];
      assert s'.record.hist == s.record.hist + [e] && !(e.Stolen? && e.thief == i);
      Parts(s.record.hist, e, i);
    }
  }

  lemma Theft<T>(base: seq<Option<T>>, i: nat, s: State<T>)
    requires Enabled(s, ThiefStep(i)) && s.thieves[i].StealRace? && s.thieves[i].t == s.top
    requires Items(s.record.hist) != [] && s.thieves[i].v == Some(Items(s.record.hist)[0])
    requires ThiefsPart(s.record.hist, i) == base
    ensures Stole(base, i, StepThief(s, i))
  {
    Parts(s.record.hist, Stolen(i, Oldest(s.record.hist)), i);
  }

  /** A call that ends otherwise returns nothing. */
  lemma GivesUp<T>(s: State<T>, i: nat, a: Action<T>)
    requires Enabled(s, a) && i < |s.thieves| && !s.thieves[i].Away?
    requires !(a.ThiefStep? && a.i == i && s.thieves[i].StealRace? && s.thieves[i].t == s.top)
    ensures i < |Apply(s, a).thieves|
    ensures Apply(s, a).thieves[i].Away? ==> Apply(s, a).thieves[i].last == None
  {}

  lemma StealGoesOn<T>(base: seq<Option<T>>, i: nat, s: State<T>, a: Action<T>)
    requires Inv(s) && Enabled(s, a) && i < |s.thieves| && !s.thieves[i].Away?
    requires ThiefsPart(s.record.hist, i) == base
    ensures i < |Apply(s, a).thieves|
    ensures if Apply(s, a).thieves[i].Away? then Stole(base, i, Apply(s, a))
            else ThiefsPart(Apply(s, a).record.hist, i) == base
  {
    if a.ThiefStep? && a.i == i && s.thieves[i].StealRace? && s.thieves[i].t == s.top {
      StealWins(s, i);
      Theft(base, i, s);
    } else {
      NoTheft(s, i, a);
      GivesUp(s, i, a);
    }
  }

  lemma {:induction false} StealEnds<T>(base: seq<Option<T>>, i: nat, s: State<T>, run: seq<Action<T>>)
    requires Inv(s) && Allowed(s, run) && OneSteal(s, i, run)
    requires if s.thieves[i].Away? then Stole(base, i, s) else ThiefsPart(s.record.hist, i) == base
    ensures Stole(base, i, Exec(s, run))
    decreases |run|
  {
    if run != [] {
      StepKeeps(s, run[0]);
      StealGoesOn(base, i, s, run[0]);
      StealEnds(base, i, Apply(s, run[0]), run[1..]);
    }
  }

  /** Between the start of a steal and its return the thief has one event if it returns an item, and otherwise none. */
  lemma ThiefCall<T>(s: State<T>, i: nat, run: seq<Action<T>>)
    requires Inv(s) && Enabled(s, Steal(i))
    requires Allowed(Apply(s, Steal(i)), run) && OneSteal(Apply(s, Steal(i)), i, run)
    ensures s.record.hist <= Exec(Apply(s, Steal(i)), run).record.hist
    ensures Stole(ThiefsPart(s.record.hist, i), i, Exec(Apply(s, Steal(i)), run))
  {
    StepKeeps(s, Steal(i));
    HistoryGrows(Apply(s, Steal(i)), run);
    StealEnds(ThiefsPart(s.record.hist, i), i, Apply(s, Steal(i)), run);
  }
}
