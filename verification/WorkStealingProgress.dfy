/**
 What calls of the work-stealing deque achieve: every call ends within a fixed number of its own steps, a steal that is
 left alone takes the oldest item if there is one, and one that takes nothing had a reason.
 */
module WorkStealingProgress {
  import opened WorkStealingCalls
  import opened WorkStealingDeque
  import opened WorkStealingProofs
  import opened WorkStealingRing
  import opened Wrappers

  // ---------------------------------------------------------------- wait freedom

  /** The steps a call of the owner still has to make, at most. */
  function OwnerRank<T>(o: Owner<T>): nat {
    match o
    case Idle => 0
    case PushTop(_, _) => 5
    case PushStorage(_, _, _) => 4
    case PushGrown(_, _, _) => 3
    case PushStore(_, _) => 2
    case PushBottom(_, _) => 1
    case PopClaim(_) => 5
    case PopTop(_) => 4
    case PopLoad(_, _) => 3
    case PopRace(_, _) => 2
    case PopRestore(_, _) => 1
  }

  function ThiefRank<T>(th: Thief<T>): nat {
    match th
    case Away(_) => 0
    case StealBottom(_) => 4
    case StealStorage(_) => 3
    case StealLoad(_, _) => 2
    case StealRace(_, _) => 1
  }

  function OwnerSteps<T>(run: seq<Action<T>>): nat {
    if run == [] then 0 else (if run[0].OwnerStep? then 1 else 0) + OwnerSteps(run[1..])
  }

  function ThiefSteps<T>(run: seq<Action<T>>, i: nat): nat {
    if run == [] then 0
    else (if run[0].ThiefStep? && run[0].i == i then 1 else 0) + ThiefSteps(run[1..], i)
  }

  lemma OwnerRanks<T>(s: State<T>, a: Action<T>)
    requires Enabled(s, a) && !s.owner.Idle?
    ensures if a.OwnerStep? then OwnerRank(Apply(s, a).owner) < OwnerRank(s.owner) else Apply(s, a).owner == s.owner
  {}

  lemma ThiefRanks<T>(s: State<T>, a: Action<T>, i: nat)
    requires Enabled(s, a) && i < |s.thieves| && !s.thieves[i].Away?
    ensures i < |Apply(s, a).thieves|
    ensures if a.ThiefStep? && a.i == i then ThiefRank(Apply(s, a).thieves[i]) < ThiefRank(s.thieves[i])
            else Apply(s, a).thieves[i] == s.thieves[i]
  {}

  /** A push or pop returns after at most five steps of its own, whatever thieves do. */
  lemma {:induction false} OwnerWaitFree<T>(s: State<T>, run: seq<Action<T>>)
    requires Allowed(s, run) && OneCall(s, run)
    ensures OwnerSteps(run) <= OwnerRank(s.owner) <= 5
    decreases |run|
  {
    if run != [] {
      OwnerRanks(s, run[0]);
      OwnerWaitFree(Apply(s, run[0]), run[1..]);
    }
  }

  /** A steal returns after at most four, whatever the others do. */
  lemma {:induction false} ThiefWaitFree<T>(s: State<T>, i: nat, run: seq<Action<T>>)
    requires Allowed(s, run) && OneSteal(s, i, run)
    ensures ThiefSteps(run, i) <= ThiefRank(s.thieves[i]) <= 4
    decreases |run|
  {
    if run != [] {
      ThiefRanks(s, run[0], i);
      ThiefWaitFree(Apply(s, run[0]), i, run[1..]);
    }
  }

  // ---------------------------------------------------------------- a steal left alone

  /** Thief i is back from a call that returned this. */
  ghost predicate Gave<T>(s: State<T>, i: nat, out: Option<T>) {
    i < |s.thieves| && s.thieves[i] == Away(out)
  }

  /** Nobody else has moved since the thief started in a state with the history h. */
  ghost predicate Undisturbed<T>(s: State<T>, i: nat, h: seq<Event<T>>) {
    && i < |s.thieves| && s.owner.Idle?
    && match s.thieves[i]
       case Away(last) => last == Oldest(h)
       case StealBottom(t) => t == s.top && s.record.hist == h
       case StealStorage(t) => t == s.top && s.record.hist == h
       case StealLoad(t, _) => t == s.top && s.record.hist == h
       case StealRace(t, _) => t == s.top && s.record.hist == h
  }

  lemma NothingToSteal<T>(s: State<T>)
    requires Inv(s) && s.owner.Idle? && s.bottom <= s.top
    ensures Oldest(s.record.hist) == None
  {}

  lemma StaysUndisturbed<T>(s: State<T>, i: nat, h: seq<Event<T>>)
    requires Inv(s) && Enabled(s, ThiefStep(i)) && Undisturbed(s, i, h)
    ensures Undisturbed(StepThief(s, i), i, h)
  {
    match s.thieves[i]
    case StealBottom(t) => if s.bottom <= t { NothingToSteal(s); }
    case StealRace(_, _) => StealWins(s, i);
    case _ =>
  }

  lemma {:induction false} UndisturbedEnds<T>(s: State<T>, i: nat, h: seq<Event<T>>, run: seq<Action<T>>)
    requires Inv(s) && Allowed(s, run) && OneSteal(s, i, run) && Undisturbed(s, i, h)
    requires forall k :: 0 <= k < |run| ==> run[k] == ThiefStep(i)
    ensures Gave(Exec(s, run), i, Oldest(h))
    decreases |run|
  {
    if run != [] {
      assert run[0] == ThiefStep(i);
      StepKeeps(s, run[0]);
      StaysUndisturbed(s, i, h);
      UndisturbedEnds(Apply(s, run[0]), i, h, run[1..]);
    }
  }

  /** With an idle owner and no other thief moving, a steal returns the oldest item, or nothing if there is none. */
  lemma LoneSteal<T>(s: State<T>, i: nat, run: seq<Action<T>>)
    requires Inv(s) && s.owner.Idle? && Enabled(s, Steal(i))
    requires Allowed(Apply(s, Steal(i)), run) && OneSteal(Apply(s, Steal(i)), i, run)
    requires forall k :: 0 <= k < |run| ==> run[k] == ThiefStep(i)
    ensures var q := Items(s.record.hist);
      Gave(Exec(Apply(s, Steal(i)), run), i, if q == [] then None else Some(q[0]))
  {
    StepKeeps(s, Steal(i));
    UndisturbedEnds(Apply(s, Steal(i)), i, s.record.hist, run);
  }

  // ---------------------------------------------------------------- a steal that takes nothing

  /** Top is what the thief read, and nothing is left but at most the item the owner is popping. */
  ghost predicate Drained<T>(s: State<T>, top: nat) {
    && s.top == top
    && |Items(s.record.hist)| <= if Popping(s.owner) then 1 else 0
  }

  /** The owner has claimed an item that it may still lose. */
  predicate Popping<T>(o: Owner<T>) {
    o.PopTop? || (o.PopLoad? && o.last) || o.PopRace?
  }

  /** ... at some moment of the run. */
  ghost predicate Sometime<T>(s: State<T>, run: seq<Action<T>>, top: nat)
    requires Allowed(s, run)
    decreases |run|
  {
    Drained(s, top) || (run != [] && Sometime(Apply(s, run[0]), run[1..], top))
  }

  ghost predicate ItemTaken<T>(e: Event<T>) {
    e.Stolen? || (e.Popped? && e.out.Some?)
  }

  /** An item has left since the history had n events. */
  ghost predicate Taken<T>(h: seq<Event<T>>, n: nat) {
    exists k :: n <= k < |h| && ItemTaken(h[k])
  }

  /** Top moves with an item that leaves. */
  lemma TopTaken<T>(s: State<T>, a: Action<T>)
    requires Inv(s) && Enabled(s, a)
    ensures var s' := Apply(s, a);
      || s'.top == s.top
      || (s'.top > s.top && |s'.record.hist| == |s.record.hist| + 1 && ItemTaken(s'.record.hist[|s.record.hist|]))
  {
    if a.OwnerStep? && s.owner.PopRace? {
      RaceTaken(s);
    }
  }

  lemma RaceTaken<T>(s: State<T>)
    requires Inv(s) && Enabled(s, OwnerStep) && s.owner.PopRace?
    ensures s.top == s.owner.b ==> Newest(s.record.hist).Some?
  {}

  /** The thief still has the top it read; once top has moved on, an item has left. */
  ghost predicate Looking<T>(s: State<T>, i: nat, top: nat, n: nat, drained: bool) {
    && i < |s.thieves| && top <= s.top && (top < s.top ==> Taken(s.record.hist, n))
    && match s.thieves[i]
       case Away(last) => last == None ==> drained || top < s.top
       case StealBottom(t) => t == top
       case StealStorage(t) => t == top
       case StealLoad(t, _) => t == top
       case StealRace(t, _) => t == top
  }

  lemma LooksOn<T>(s: State<T>, i: nat, top: nat, n: nat, a: Action<T>)
    requires Inv(s) && Enabled(s, a) && i < |s.thieves| && !s.thieves[i].Away?
    requires Looking(s, i, top, n, false) && n <= |s.record.hist|
    ensures Looking(Apply(s, a), i, top, n, Drained(s, top))
  {
    var s' := Apply(s, a);
    KeepsTaken(s, a, n);
    TopTaken(s, a);
    if a.ThiefStep? && a.i == i {
      match s.thieves[i]
      case StealBottom(t) => if s.bottom <= t && s.top == top { GivesUpOnlyWhenEmpty(s, i); }
      case StealRace(_, _) => if s.top == top { StealWins(s, i); }
      case _ =>
    } else {
      ThiefRanks(s, a, i);
    }
  }

  lemma KeepsTaken<T>(s: State<T>, a: Action<T>, n: nat)
    requires Enabled(s, a)
    ensures s.record.hist <= Apply(s, a).record.hist
    ensures Taken(s.record.hist, n) ==> Taken(Apply(s, a).record.hist, n)
  {
    var h, h' := s.record.hist, Apply(s, a).record.hist;
    assert h <= h';
    if Taken(h, n) {
      var k :| n <= k < |h| && ItemTaken(h[k]);
      assert h'[k] == h[k];
    }
  }

  lemma {:induction false} LookingEnds<T>(s: State<T>, i: nat, top: nat, n: nat, run: seq<Action<T>>, drained: bool)
    requires Inv(s) && Allowed(s, run) && OneSteal(s, i, run) && n <= |s.record.hist|
    requires Looking(s, i, top, n, drained) && (!s.thieves[i].Away? ==> !drained)
    ensures var e := Exec(s, run);
      Gave(e, i, None) ==> drained || Sometime(s, run, top) || (top < e.top && Taken(e.record.hist, n))
    decreases |run|
  {
    if run != [] {
      var s' := Apply(s, run[0]);
      StepKeeps(s, run[0]);
      LooksOn(s, i, top, n, run[0]);
      KeepsTaken(s, run[0], n);
      if !Drained(s, top) {
        LookingEnds(s', i, top, n, run[1..], false);
      }
    }
  }

  /**
   A steal that returns nothing: at some moment of the call nothing was left, but at most the item that the owner was
   popping, or somebody else took an item during the call and moved top on.
   */
  lemma NothingOnlyIf<T>(s: State<T>, i: nat, run: seq<Action<T>>)
    requires Inv(s) && Enabled(s, Steal(i))
    requires Allowed(Apply(s, Steal(i)), run) && OneSteal(Apply(s, Steal(i)), i, run)
    ensures var e := Exec(Apply(s, Steal(i)), run);
      Gave(e, i, None) ==>
        || Sometime(Apply(s, Steal(i)), run, s.top)
        || (s.top < e.top && Taken(e.record.hist, |s.record.hist|))
  {
    StepKeeps(s, Steal(i));
    LookingEnds(Apply(s, Steal(i)), i, s.top, |s.record.hist|, run, false);
  }
}
