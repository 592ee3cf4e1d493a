/**
 The Chase-Lev `work_stealing_deque` as a transition system: one owner, any number of thieves, every load,
 store and compare-exchange a step, under sequential consistency.  Replaced rings stay allocated, and a thief
 may still be reading one.

 Every run is shown to be a run of a sequential deque: items leave exactly once, thieves take the oldest and the
 owner takes the newest.
 */
module WorkStealingDeque {
  import opened Arithmetic
  import opened Wrappers
  import opened WorkStealingRing

  datatype Owner<T> =
    | Idle
    | PushTop(v: T, b: int)                                  // bottom loaded
    | PushStorage(v: T, b: int, t: nat)                      // top loaded
    | PushGrown(v: T, b: int, grown: Ring<T>)                // new ring filled, m_storage still to be stored
    | PushStore(v: T, b: int)                                // value still to be stored in the ring
    | PushBottom(v: T, b: int)                               // bottom still to be published
    | PopClaim(b: int)                                       // bottom - 1 still to be stored
    | PopTop(b: int)                                         // top still to be loaded
    | PopLoad(b: int, last: bool)                            // value still to be loaded; `last`: top was b
    | PopRace(b: int, found: Option<T>)                      // the compare-exchange on top
    | PopRestore(b: int, found: Option<T>)                   // bottom + 1 still to be stored

  datatype Thief<T> =
    | Away(last: Option<T>)                                  // between calls: what the last one returned
    | StealBottom(t: nat)                                    // top loaded
    | StealStorage(t: nat)                                   // bottom loaded and above t
    | StealLoad(t: nat, r: nat)                              // m_storage loaded
    | StealRace(t: nat, v: Option<T>)                        // value loaded

  /**
   What happened to the deque, in order, with the item the sequential deque gives.  A pop may find it empty; a
   steal that takes nothing is no event.
   */
  datatype Event<T> = Pushed(v: T) | Popped(out: Option<T>) | Stolen(thief: nat, out: Option<T>)

  /** `hist` is the history of effects, `pops` and `steals` the values the calls really returned. */
  datatype Log<T> = Log(hist: seq<Event<T>>, pops: seq<Option<T>>, steals: seq<Option<T>>) {
    function Effect(e: Event<T>): Log<T> { this.(hist := hist + [e]) }
    function PopReturns(v: Option<T>): Log<T> { this.(pops := pops + [v]) }
    function StealReturns(v: Option<T>): Log<T> { this.(steals := steals + [v]) }
  }

  datatype State<T> = State(top: nat, bottom: int, rings: seq<Ring<T>>, owner: Owner<T>, thieves: seq<Thief<T>>,
                            record: Log<T>)

  datatype Action<T> = Push(v: T) | Pop | OwnerStep | Join | Steal(i: nat) | ThiefStep(i: nat)

  function Init<T>(capacity: nat, log: nat): State<T>
    requires BitCeil(capacity) == Pow2(log)
  {
    State(0, 0, [Fresh(log)], Idle, [], Log([], [], []))
  }

  /** No index used on a ring is negative; `Inv` has this for every state. */
  ghost predicate OwnerEnabled<T>(s: State<T>) {
    && !s.owner.Idle?
    && (s.owner.PushStore? || s.owner.PushStorage? || s.owner.PopLoad? || s.owner.PopRace? ==> s.owner.b >= 0)
  }

  ghost predicate Enabled<T>(s: State<T>, a: Action<T>) {
    && s.rings != [] && (forall r :: 0 <= r < |s.rings| ==> s.rings[r].Valid())
    && match a
       case Push(_) => s.owner.Idle?
       case Pop => s.owner.Idle?
       case OwnerStep => OwnerEnabled(s)
       case Join => true
       case Steal(i) => i < |s.thieves| && s.thieves[i].Away?
       case ThiefStep(i) =>
         i < |s.thieves| && !s.thieves[i].Away? && (s.thieves[i].StealLoad? ==> s.thieves[i].r < |s.rings|)
  }

  function Current<T>(s: State<T>): Ring<T>
    requires s.rings != []
  {
    s.rings[|s.rings| - 1]
  }

  function StepOwner<T>(s: State<T>): State<T>
    requires s.rings != [] && (forall r :: 0 <= r < |s.rings| ==> s.rings[r].Valid()) && OwnerEnabled(s)
  {
    match s.owner
    case Idle => s
    case PushTop(v, b) => s.(owner := PushStorage(v, b, s.top))
    case PushStorage(v, b, t) =>
      if Current(s).Capacity() - 1 < b - t then s.(owner := PushGrown(v, b, Resized(Current(s), b, t)))
      else s.(owner := PushStore(v, b))
    case PushGrown(v, b, grown) => s.(rings := s.rings + [grown], owner := PushStore(v, b))
    case PushStore(v, b) =>
      s.(rings := s.rings[|s.rings| - 1 := Current(s).Store(b, Some(v))], owner := PushBottom(v, b))
    case PushBottom(v, b) => s.(bottom := b + 1, owner := Idle, record := s.record.Effect(Pushed(v)))
    case PopClaim(b) => s.(bottom := b, owner := PopTop(b))
    case PopTop(b) =>
      if s.top < b then s.(owner := PopLoad(b, false), record := s.record.Effect(Popped(Newest(s.record.hist))))
      else if s.top == b then s.(owner := PopLoad(b, true))
      else s.(owner := PopRestore(b, None), record := s.record.Effect(Popped(None)))
    case PopLoad(b, last) =>
      var v := Current(s).Load(b);
      if last then s.(owner := PopRace(b, v)) else s.(owner := Idle, record := s.record.PopReturns(v))
    case PopRace(b, v) =>
      if s.top == b then
        s.(top := b + 1, owner := PopRestore(b, v), record := s.record.Effect(Popped(Newest(s.record.hist))))
      else s.(owner := PopRestore(b, None), record := s.record.Effect(Popped(None)))
    case PopRestore(b, v) => s.(bottom := b + 1, owner := Idle, record := s.record.PopReturns(v))
  }

  function Put<T>(s: State<T>, i: nat, th: Thief<T>): State<T>
    requires i < |s.thieves|
  {
    s.(thieves := s.thieves[i := th])
  }

  function StepThief<T>(s: State<T>, i: nat): State<T>
    requires s.rings != [] && (forall r :: 0 <= r < |s.rings| ==> s.rings[r].Valid())
    requires i < |s.thieves| && (s.thieves[i].StealLoad? ==> s.thieves[i].r < |s.rings|)
  {
    match s.thieves[i]
    case Away(_) => s
    case StealBottom(t) => Put(s, i, if t < s.bottom then StealStorage(t) else Away(None))
    case StealStorage(t) => Put(s, i, StealLoad(t, |s.rings| - 1))
    case StealLoad(t, r) => Put(s, i, StealRace(t, s.rings[r].Load(t)))
    case StealRace(t, v) =>
      if s.top == t then
        Put(s, i, Away(v)).(top := t + 1, record := s.record.Effect(Stolen(i, Oldest(s.record.hist))).StealReturns(v))
      else Put(s, i, Away(None))
  }

  function Apply<T>(s: State<T>, a: Action<T>): State<T>
    requires Enabled(s, a)
  {
    match a
    case Push(v) => s.(owner := PushTop(v, s.bottom))
    case Pop => s.(owner := PopClaim(s.bottom - 1))
    case OwnerStep => StepOwner(s)
    case Join => s.(thieves := s.thieves + [Away(None)])
    case Steal(i) => Put(s, i, StealBottom(s.top))
    case ThiefStep(i) => StepThief(s, i)
  }

  // ---------------------------------------------------------------- the sequential deque

  function After<T>(q: seq<T>, e: Event<T>): seq<T> {
    match e
    case Pushed(v) => q + [v]
    case Popped(_) => if q == [] then q else q[..|q| - 1]
    case Stolen(_, _) => if q == [] then q else q[1..]
  }

  /** The items in the deque after a history, oldest first. */
  function Items<T>(h: seq<Event<T>>): seq<T> {
    if |h| == 0 then [] else After(Items(h[..|h| - 1]), h[|h| - 1])
  }

  function Newest<T>(h: seq<Event<T>>): Option<T> {
    var q := Items(h);
    if q == [] then None else Some(q[|q| - 1])
  }

  function Oldest<T>(h: seq<Event<T>>): Option<T> {
    var q := Items(h);
    if q == [] then None else Some(q[0])
  }

  /** A pop takes the newest item, and nothing only from an empty deque; a steal takes the oldest. */
  ghost predicate Legal<T>(h: seq<Event<T>>) {
    h == [] || (Legal(h[..|h| - 1]) && Takes(Items(h[..|h| - 1]), h[|h| - 1]))
  }

  ghost predicate Takes<T>(q: seq<T>, e: Event<T>) {
    match e
    case Pushed(_) => true
    case Popped(out) => out == if q == [] then None else Some(q[|q| - 1])
    case Stolen(_, out) => q != [] && out == Some(q[0])
  }

  /** The results the sequential deque gives to pops, and to steals, in order. */
  function PopsOf<T>(h: seq<Event<T>>): seq<Option<T>> {
    if h == [] then []
    else PopsOf(h[..|h| - 1]) + if h[|h| - 1].Popped? then [h[|h| - 1].out] else []
  }

  function StealsOf<T>(h: seq<Event<T>>): seq<Option<T>> {
    if h == [] then []
    else StealsOf(h[..|h| - 1]) + if h[|h| - 1].Stolen? then [h[|h| - 1].out] else []
  }

  function PushesOf<T>(h: seq<Event<T>>): seq<T> {
    if h == [] then []
    else PushesOf(h[..|h| - 1]) + if h[|h| - 1].Pushed? then [h[|h| - 1].v] else []
  }

  function Values<T>(vs: seq<Option<T>>): seq<T> {
    if vs == [] then []
    else Values(vs[..|vs| - 1]) + if vs[|vs| - 1].Some? then [vs[|vs| - 1].value] else []
  }
}
