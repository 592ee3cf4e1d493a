/** Every run of the work-stealing deque is a run of a sequential deque. */
module WorkStealingProofs {
  import opened Arithmetic
  import opened Wrappers
  import opened WorkStealingRing
  import opened WorkStealingDeque

  /** One past the newest live index: an index the owner is popping is live until its pop takes effect. */
  function End<T>(s: State<T>): int {
    match s.owner
    case PopTop(b) => b + 1
    case PopLoad(b, last) => if last then b + 1 else b
    case PopRace(b, _) => b + 1
    case PopRestore(b, _) => b + 1
    case _ => s.bottom
  }

  /** The results of pops that have taken effect but not returned. */
  ghost function Owed<T>(s: State<T>): seq<Option<T>>
    requires s.rings != [] && Current(s).Valid() && (s.owner.PopLoad? ==> s.owner.b >= 0)
  {
    match s.owner
    case PopLoad(b, last) => if last then [] else [Current(s).Load(b)]
    case PopRestore(_, v) => [v]
    case _ => []
  }

  ghost predicate OwnerOk<T>(s: State<T>)
    requires s.rings != [] && Current(s).Valid()
  {
    var cap := Current(s).Capacity();
    match s.owner
    case Idle => s.bottom >= s.top
    case PushTop(_, b) => b == s.bottom >= s.top
    case PushStorage(_, b, t) => b == s.bottom >= s.top >= t && b - t <= cap
    case PushGrown(_, b, grown) =>
      && b == s.bottom >= s.top && grown.Valid() && b - s.top <= grown.Capacity() - 1
      && forall k :: s.top <= k < b ==> grown.Load(k) == Current(s).Load(k)
    case PushStore(_, b) => b == s.bottom >= s.top && b - s.top <= cap - 1
    case PushBottom(v, b) => b == s.bottom >= s.top && b - s.top <= cap - 1 && Current(s).Load(b) == Some(v)
    case PopClaim(b) => b + 1 == s.bottom >= s.top
    case PopTop(b) => b == s.bottom && s.top <= b + 1
    case PopLoad(b, last) => 0 <= b == s.bottom && if last then b <= s.top <= b + 1 else s.top <= b
    case PopRace(b, v) => 0 <= b == s.bottom && b <= s.top <= b + 1 && (s.top == b ==> v == Current(s).Load(b))
    case PopRestore(b, _) => b == s.bottom && s.top == b + 1 && b >= -1
  }

  /** While top is still what a thief read, the item there is live and is what the thief will find. */
  ghost predicate ThiefOk<T>(s: State<T>, th: Thief<T>)
    requires forall r :: 0 <= r < |s.rings| ==> s.rings[r].Valid()
  {
    match th
    case Away(_) => true
    case StealBottom(t) => t <= s.top
    case StealStorage(t) => t <= s.top && (t == s.top ==> t < End(s))
    case StealLoad(t, r) =>
      && t <= s.top && r < |s.rings|
      && (t == s.top ==> t < End(s) && s.rings[r].Load(t) == Oldest(s.record.hist))
    case StealRace(t, v) => t <= s.top && (t == s.top ==> t < End(s) && v == Oldest(s.record.hist))
  }

  /** The current ring holds the items of the sequential deque at the live indices, without aliasing. */
  ghost predicate Holds<T>(ring: Ring<T>, top: nat, q: seq<T>)
    requires ring.Valid()
  {
    |q| <= ring.Capacity() && forall k :: 0 <= k < |q| ==> ring.Load(top + k) == Some(q[k])
  }

  ghost predicate Rings<T>(s: State<T>) {
    s.rings != [] && forall r :: 0 <= r < |s.rings| ==> s.rings[r].Valid()
  }

  /** The effects so far are those of a sequential deque of that size, and the values returned are its values. */
  ghost predicate Recorded<T>(record: Log<T>, size: int, owed: seq<Option<T>>) {
    && Legal(record.hist)
    && |Items(record.hist)| == size
    && PopsOf(record.hist) == record.pops + owed
    && StealsOf(record.hist) == record.steals
  }

  /** What concerns the owner and the shared state. */
  ghost predicate Core<T>(s: State<T>) {
    && Rings(s) && OwnerOk(s) && Recorded(s.record, End(s) - s.top, Owed(s))
    && Holds(Current(s), s.top, Items(s.record.hist))
  }

  ghost predicate ThievesOk<T>(s: State<T>)
    requires Rings(s)
  {
    forall i :: 0 <= i < |s.thieves| ==> ThiefOk(s, s.thieves[i])
  }

  ghost predicate Inv<T>(s: State<T>) {
    Core(s) && ThievesOk(s)
  }

  // ---------------------------------------------------------------- histories

  lemma Append<T>(h: seq<Event<T>>, e: Event<T>)
    requires Legal(h) && Takes(Items(h), e)
    ensures Legal(h + [e])
    ensures Items(h + [e]) == After(Items(h), e)
    ensures PopsOf(h + [e]) == PopsOf(h) + if e.Popped? then [e.out] else []
    ensures StealsOf(h + [e]) == StealsOf(h) + if e.Stolen? then [e.out] else []
  {
    assert (h + [e])[..|h|] == h;
  }

  lemma RecordPush<T>(r: Log<T>, size: int, v: T)
    requires Recorded(r, size, [])
    ensures Recorded(r.Effect(Pushed(v)), size + 1, [])
    ensures Items(r.Effect(Pushed(v)).hist) == Items(r.hist) + [v]
  {
    Append(r.hist, Pushed(v));
    assert PopsOf(r.hist) + [] == PopsOf(r.hist) && StealsOf(r.hist) + [] == StealsOf(r.hist);
  }

  /** A pop that takes effect owes the newest item, or nothing when there is none. */
  lemma RecordPop<T>(r: Log<T>, size: int)
    requires Recorded(r, size, [])
    ensures var r', q := r.Effect(Popped(Newest(r.hist))), Items(r.hist);
      && Recorded(r', if q == [] then 0 else size - 1, [Newest(r.hist)])
      && Items(r'.hist) == if q == [] then q else q[..|q| - 1]
  {
    Append(r.hist, Popped(Newest(r.hist)));
    assert StealsOf(r.hist) + [] == StealsOf(r.hist);
    assert r.pops + [] == r.pops;
  }

  lemma RecordReturn<T>(r: Log<T>, size: int, v: Option<T>)
    requires Recorded(r, size, [v])
    ensures Recorded(r.PopReturns(v), size, [])
  {
    assert (r.pops + [v]) + [] == r.pops + [v];
  }

  /** A winning steal takes the oldest item and returns it at once. */
  lemma RecordSteal<T>(r: Log<T>, size: int, owed: seq<Option<T>>, i: nat)
    requires Recorded(r, size, owed) && size > 0
    ensures var r' := r.Effect(Stolen(i, Oldest(r.hist))).StealReturns(Oldest(r.hist));
      Recorded(r', size - 1, owed) && Items(r'.hist) == Items(r.hist)[1..]
  {
    Append(r.hist, Stolen(i, Oldest(r.hist)));
    assert PopsOf(r.hist) + [] == PopsOf(r.hist);
  }

  /** pushed = popped + stolen + still held. */
  ghost predicate Accounted<T>(pushed: seq<T>, pops: seq<Option<T>>, steals: seq<Option<T>>, q: seq<T>) {
    multiset(pushed) == multiset(Values(pops)) + multiset(Values(steals)) + multiset(q)
  }

  /** The whole content is accounted for. */
  lemma {:induction false} Conservation<T>(h: seq<Event<T>>)
    requires Legal(h)
    ensures Accounted(PushesOf(h), PopsOf(h), StealsOf(h), Items(h))
  {
    if h != [] {
      var g, e := h[..|h| - 1], h[|h| - 1];
      Conservation(g);
      Conserves(PushesOf(g), PopsOf(g), StealsOf(g), Items(g), e);
      assert PushesOf(g) + [] == PushesOf(g) && PopsOf(g) + [] == PopsOf(g) && StealsOf(g) + [] == StealsOf(g);
    }
  }

  lemma Conserves<T>(pushed: seq<T>, pops: seq<Option<T>>, steals: seq<Option<T>>, q: seq<T>, e: Event<T>)
    requires Takes(q, e) && Accounted(pushed, pops, steals, q)
    ensures e.Pushed? ==> Accounted(pushed + [e.v], pops, steals, After(q, e))
    ensures e.Popped? ==> Accounted(pushed, pops + [e.out], steals, After(q, e))
    ensures e.Stolen? ==> Accounted(pushed, pops, steals + [e.out], After(q, e))
  {
    match e {
      case Pushed(v) => PushAccounted(pushed, pops, steals, q, v);
      case Popped(out) =>
        Returned(pops, q, After(q, e), out);
        Exchanged(multiset(Values(steals)), multiset(Values(pops)), multiset(q),
                  multiset(Values(pops + [out])), multiset(After(q, e)));
      case Stolen(_, out) =>
        Returned(steals, q, After(q, e), out);
        Exchanged(multiset(Values(pops)), multiset(Values(steals)), multiset(q),
                  multiset(Values(steals + [out])), multiset(After(q, e)));
    }
  }

  lemma Exchanged<T>(a: multiset<T>, b: multiset<T>, c: multiset<T>, b': multiset<T>, c': multiset<T>)
    requires b' + c' == b + c
    ensures a + b' + c' == a + b + c && b' + a + c' == b + a + c
  {
    assert a + b + c == a + (b + c) && a + b' + c' == a + (b' + c');
    assert b + a + c == a + (b + c) && b' + a + c' == a + (b' + c');
  }

  lemma PushAccounted<T>(pushed: seq<T>, pops: seq<Option<T>>, steals: seq<Option<T>>, q: seq<T>, v: T)
    requires Accounted(pushed, pops, steals, q)
    ensures Accounted(pushed + [v], pops, steals, q + [v])
  {}

  /** A value that leaves q joins the values returned: together they stay the same. */
  lemma Returned<T>(vs: seq<Option<T>>, q: seq<T>, rest: seq<T>, out: Option<T>)
    requires if q == [] then rest == [] && out == None
             else || (rest == q[1..] && out == Some(q[0]))
                  || (rest == q[..|q| - 1] && out == Some(q[|q| - 1]))
    ensures multiset(Values(vs + [out])) + multiset(rest) == multiset(Values(vs)) + multiset(q)
  {
    ValuesSnoc(vs, out);
    if q != [] {
      TakenOut(q, rest, out.value);
    }
  }

  lemma TakenOut<T>(q: seq<T>, rest: seq<T>, x: T)
    requires q != [] && ((rest == q[1..] && x == q[0]) || (rest == q[..|q| - 1] && x == q[|q| - 1]))
    ensures multiset(q) == multiset(rest) + multiset{x}
  {
    if rest == q[1..] && x == q[0] {
      assert q == [x] + rest;
    } else {
      assert q == rest + [x];
    }
  }

  lemma ValuesSnoc<T>(vs: seq<Option<T>>, v: Option<T>)
    ensures Values(vs + [v]) == Values(vs) + if v.Some? then [v.value] else []
  {
    assert (vs + [v])[..|vs|] == vs;
  }

  // ---------------------------------------------------------------- the owner

  lemma StoreKeeps<T>(ring: Ring<T>, top: nat, q: seq<T>, b: nat, v: T)
    requires ring.Valid() && Holds(ring, top, q) && b == top + |q| && |q| < ring.Capacity()
    ensures Holds(ring.Store(b, Some(v)), top, q) && ring.Store(b, Some(v)).Load(b) == Some(v)
  {
    var ring' := ring.Store(b, Some(v));
    forall k | 0 <= k < |q| ensures ring'.Load(top + k) == Some(q[k]) {
      assert ring.Load(top + k) == Some(q[k]);
      if ring.Cell(top + k) == ring.Cell(b) {
        SameCell(ring, top + k, b);
      }
    }
  }

  /** A step of the owner that leaves the rings, top and the history alone keeps what thieves rely on. */
  lemma ThievesKeep<T>(s: State<T>, s': State<T>)
    requires Core(s) && ThievesOk(s) && s'.thieves == s.thieves && s'.top == s.top && s.rings <= s'.rings
    requires Rings(s')
    requires End(s) > s.top ==> End(s') > s.top && Oldest(s'.record.hist) == Oldest(s.record.hist)
    ensures ThievesOk(s')
  {
    forall i | 0 <= i < |s'.thieves| ensures ThiefOk(s', s'.thieves[i]) {
      assert ThiefOk(s, s.thieves[i]);
    }
  }

  /** The private steps of the owner: only its program counter moves. */
  lemma OwnerMoves<T>(s: State<T>, s': State<T>)
    requires Inv(s) && s' == s.(owner := s'.owner) && OwnerOk(s')
    requires End(s') == End(s) && Owed(s') == Owed(s)
    ensures Inv(s')
  {
    ThievesKeep(s, s');
  }

  lemma PushStorageKeeps<T>(s: State<T>)
    requires Inv(s) && Enabled(s, OwnerStep) && s.owner.PushStorage?
    ensures Inv(StepOwner(s))
  {
    var b, t := s.owner.b, s.owner.t;
    forall k | s.top <= k < b ensures Resized(Current(s), b, t).Load(k) == Current(s).Load(k) {
      ResizedKeeps(Current(s), b, t, k);
    }
    OwnerMoves(s, StepOwner(s));
  }

  lemma PushGrownKeeps<T>(s: State<T>)
    requires Inv(s) && Enabled(s, OwnerStep) && s.owner.PushGrown?
    ensures Inv(StepOwner(s))
  {
    var s' := StepOwner(s);
    SameItems(Current(s), s.owner.grown, s.top, Items(s.record.hist));
    assert Current(s') == s.owner.grown && OwnerOk(s');
    ThievesKeep(s, s');
  }

  lemma SameItems<T>(ring: Ring<T>, grown: Ring<T>, top: nat, q: seq<T>)
    requires ring.Valid() && grown.Valid() && Holds(ring, top, q) && |q| <= grown.Capacity()
    requires forall k :: top <= k < top + |q| ==> grown.Load(k) == ring.Load(k)
    ensures Holds(grown, top, q)
  {
    forall k | 0 <= k < |q| ensures grown.Load(top + k) == Some(q[k]) {
      assert ring.Load(top + k) == Some(q[k]);
    }
  }

  /** Writing the pushed value cannot disturb a thief: the cell at top is another one while top is unchanged. */
  lemma PushStoreKeeps<T>(s: State<T>)
    requires Inv(s) && Enabled(s, OwnerStep) && s.owner.PushStore?
    ensures Inv(StepOwner(s))
  {
    var s' := StepOwner(s);
    var b, v := s.owner.b, s.owner.v;
    StoreKeeps(Current(s), s.top, Items(s.record.hist), b, v);
    forall i | 0 <= i < |s'.thieves| ensures ThiefOk(s', s'.thieves[i]) {
      var th := s.thieves[i];
      assert ThiefOk(s, th);
      if th.StealLoad? && th.t == s.top && th.r == |s.rings| - 1 {
        assert s'.rings[th.r].Load(s.top + 0) == Some(Items(s.record.hist)[0]);
      }
    }
  }

  lemma PushBottomKeeps<T>(s: State<T>)
    requires Inv(s) && Enabled(s, OwnerStep) && s.owner.PushBottom?
    ensures Inv(StepOwner(s))
  {
    var s' := StepOwner(s);
    RecordPush(s.record, End(s) - s.top, s.owner.v);
    HoldsMore(Current(s), s.top, Items(s.record.hist), s.owner.v);
    assert OwnerOk(s');
    ThievesKeep(s, s');
  }

  lemma HoldsMore<T>(ring: Ring<T>, top: nat, q: seq<T>, v: T)
    requires ring.Valid() && Holds(ring, top, q) && |q| < ring.Capacity() && ring.Load(top + |q|) == Some(v)
    ensures Holds(ring, top, q + [v])
  {}

  lemma HoldsRest<T>(ring: Ring<T>, top: nat, q: seq<T>)
    requires ring.Valid() && Holds(ring, top, q) && q != []
    ensures Holds(ring, top + 1, q[1..]) && ring.Load(top) == Some(q[0])
  {
    assert ring.Load(top + 0) == Some(q[0]);
    forall k | 0 <= k < |q| - 1 ensures ring.Load(top + 1 + k) == Some(q[1..][k]) {
      assert ring.Load(top + (k + 1)) == Some(q[k + 1]);
    }
  }

  lemma HoldsInit<T>(ring: Ring<T>, top: nat, q: seq<T>)
    requires ring.Valid() && Holds(ring, top, q) && q != []
    ensures Holds(ring, top, q[..|q| - 1]) && ring.Load(top + |q| - 1) == Some(q[|q| - 1])
  {
    assert ring.Load(top + (|q| - 1)) == Some(q[|q| - 1]);
  }

  lemma PopKeeps<T>(s: State<T>)
    requires Inv(s) && Enabled(s, OwnerStep)
    requires s.owner.PopClaim? || s.owner.PopLoad? || s.owner.PopRestore?
    ensures Inv(StepOwner(s))
  {
    var s' := StepOwner(s);
    if Owed(s) != [] {
      RecordReturn(s.record, End(s) - s.top, Owed(s)[0]);
    }
    assert OwnerOk(s');
    ThievesKeep(s, s');
  }

  /** The pop takes effect when it sees top below its index: from then on no thief can reach the item. */
  lemma PopTopKeeps<T>(s: State<T>)
    requires Inv(s) && Enabled(s, OwnerStep) && s.owner.PopTop?
    ensures Inv(StepOwner(s))
  {
    if s.top == s.owner.b {
      OwnerMoves(s, StepOwner(s));
    } else if s.top < s.owner.b {
      PopCommits(s);
    } else {
      PopFindsNothing(s);
    }
  }

  lemma PopCommits<T>(s: State<T>)
    requires Inv(s) && Enabled(s, OwnerStep) && s.owner.PopTop? && s.top < s.owner.b
    ensures Inv(StepOwner(s))
  {
    CommitCore(s);
    ThievesKeep(s, StepOwner(s));
  }

  lemma CommitCore<T>(s: State<T>)
    requires Core(s) && s.owner.PopTop? && s.top < s.owner.b
    ensures Core(StepOwner(s)) && Oldest(StepOwner(s).record.hist) == Oldest(s.record.hist)
  {
    Commits(s.record, Current(s), s.top, s.owner.b);
  }

  lemma Commits<T>(r: Log<T>, ring: Ring<T>, top: nat, b: int)
    requires ring.Valid() && top < b && Recorded(r, b + 1 - top, []) && Holds(ring, top, Items(r.hist))
    ensures var r' := r.Effect(Popped(Newest(r.hist)));
      && Recorded(r', b - top, [ring.Load(b)]) && Holds(ring, top, Items(r'.hist))
      && Oldest(r'.hist) == Oldest(r.hist)
  {
    RecordPop(r, b + 1 - top);
    HoldsNewest(ring, top, b, Items(r.hist));
    FirstOfInit(Items(r.hist));
  }

  lemma HoldsNewest<T>(ring: Ring<T>, top: nat, b: int, q: seq<T>)
    requires ring.Valid() && Holds(ring, top, q) && |q| == b + 1 - top && q != [] && b >= 0
    ensures Holds(ring, top, q[..|q| - 1]) && ring.Load(b) == Some(q[|q| - 1])
  {
    HoldsInit(ring, top, q);
    assert b == top + |q| - 1;
  }

  lemma FirstOfInit<T>(q: seq<T>)
    requires |q| >= 2
    ensures q[..|q| - 1] != [] && q[..|q| - 1][0] == q[0]
  {}

  lemma PopFindsNothing<T>(s: State<T>)
    requires Inv(s) && Enabled(s, OwnerStep) && s.owner.PopTop? && s.top > s.owner.b
    ensures Inv(StepOwner(s))
  {
    FindsNothingCore(s);
    ThievesKeep(s, StepOwner(s));
  }

  /** A pop that takes effect on nothing leaves the rings as they are. */
  lemma PopsNothing<T>(s: State<T>)
    requires Core(s) && (s.owner.PopTop? || s.owner.PopRace?) && Items(s.record.hist) == []
    requires Recorded(s.record.Effect(Popped(None)), 0, [None]) && End(s) == s.top
    ensures Core(s.(owner := PopRestore(s.owner.b, None), record := s.record.Effect(Popped(None))))
  {
  }

  lemma FindsNothingCore<T>(s: State<T>)
    requires Core(s) && s.owner.PopTop? && s.top > s.owner.b
    ensures Core(StepOwner(s)) && End(StepOwner(s)) == End(s) == s.top
  {
    RecordPop(s.record, 0);
    assert Items(s.record.hist) == [] && Newest(s.record.hist) == None;
    PopsNothing(s);
  }

  /** The last item: whoever moves top first has it. */
  lemma PopRaceKeeps<T>(s: State<T>)
    requires Inv(s) && Enabled(s, OwnerStep) && s.owner.PopRace?
    ensures Inv(StepOwner(s))
  {
    if s.top == s.owner.b {
      RaceWonCore(s);
      TopMoves(s, StepOwner(s));
    } else {
      RaceLostCore(s);
      ThievesKeep(s, StepOwner(s));
    }
  }

  lemma RaceWonCore<T>(s: State<T>)
    requires Core(s) && s.owner.PopRace? && s.top == s.owner.b
    ensures Core(StepOwner(s))
  {
    RecordPop(s.record, 1);
    HoldsRest(Current(s), s.top, Items(s.record.hist));
  }

  lemma RaceLostCore<T>(s: State<T>)
    requires Core(s) && s.owner.PopRace? && s.top != s.owner.b
    ensures Core(StepOwner(s)) && End(StepOwner(s)) == End(s) == s.top
  {
    RecordPop(s.record, 0);
    assert Items(s.record.hist) == [] && Newest(s.record.hist) == None;
    PopsNothing(s);
  }

  // ---------------------------------------------------------------- the thieves

  /** When top moves on, no thief's earlier reading of top is current any more. */
  lemma TopMoves<T>(s: State<T>, s': State<T>)
    requires Rings(s) && ThievesOk(s)
    requires s'.rings == s.rings && s'.top == s.top + 1 && |s'.thieves| == |s.thieves|
    requires forall i :: 0 <= i < |s.thieves| ==> s'.thieves[i] == s.thieves[i] || s'.thieves[i].Away?
    ensures ThievesOk(s')
  {
    forall i | 0 <= i < |s'.thieves| ensures ThiefOk(s', s'.thieves[i]) {
      assert ThiefOk(s, s.thieves[i]);
    }
  }

  /** Only thief i moves, and nothing else changes. */
  lemma OneThief<T>(s: State<T>, i: nat, th: Thief<T>)
    requires Inv(s) && i < |s.thieves| && ThiefOk(s, th)
    ensures Inv(Put(s, i, th))
  {
    var s' := Put(s, i, th);
    assert OwnerOk(s') && Holds(Current(s'), s'.top, Items(s'.record.hist));
    forall j | 0 <= j < |s'.thieves| ensures ThiefOk(s', s'.thieves[j]) {
      assert ThiefOk(s, if j == i then th else s.thieves[j]);
    }
  }

  lemma ThiefKeeps<T>(s: State<T>, i: nat)
    requires Inv(s) && Enabled(s, ThiefStep(i))
    requires !(s.thieves[i].StealRace? && s.thieves[i].t == s.top)
    ensures Inv(StepThief(s, i))
  {
    assert ThiefOk(s, s.thieves[i]);
    if s.thieves[i].StealStorage? && s.thieves[i].t == s.top {
      HoldsRest(Current(s), s.top, Items(s.record.hist));
    }
    OneThief(s, i, StepThief(s, i).thieves[i]);
  }

  /** A winning thief returns the oldest item, through whatever ring it read it. */
  lemma StealWins<T>(s: State<T>, i: nat)
    requires Inv(s) && Enabled(s, ThiefStep(i)) && s.thieves[i].StealRace? && s.thieves[i].t == s.top
    ensures Inv(StepThief(s, i))
    ensures Items(s.record.hist) != [] && s.thieves[i].v == Some(Items(s.record.hist)[0])
  {
    assert ThiefOk(s, s.thieves[i]);
    StealCore(s, i);
    TopMoves(s, StepThief(s, i));
  }

  lemma StealCore<T>(s: State<T>, i: nat)
    requires Core(s) && i < |s.thieves| && s.thieves[i].StealRace? && s.thieves[i].t == s.top < End(s)
    requires s.thieves[i].v == Oldest(s.record.hist)
    ensures Core(StepThief(s, i))
  {
    var s' := StepThief(s, i);
    Steals(s.record, Current(s), s.top, End(s) - s.top, Owed(s), i);
    assert Owed(s') == Owed(s) && End(s') - s'.top == End(s) - s.top - 1;
  }

  lemma Steals<T>(r: Log<T>, ring: Ring<T>, top: nat, size: int, owed: seq<Option<T>>, i: nat)
    requires ring.Valid() && size > 0 && Recorded(r, size, owed) && Holds(ring, top, Items(r.hist))
    ensures var r' := r.Effect(Stolen(i, Oldest(r.hist))).StealReturns(Oldest(r.hist));
      Recorded(r', size - 1, owed) && Holds(ring, top + 1, Items(r'.hist))
  {
    RecordSteal(r, size, owed, i);
    HoldsRest(ring, top, Items(r.hist));
  }

  // ---------------------------------------------------------------- runs

  lemma OwnerKeeps<T>(s: State<T>)
    requires Inv(s) && Enabled(s, OwnerStep)
    ensures Inv(StepOwner(s))
  {
    match s.owner
    case PushStore(_, _) => PushStoreKeeps(s);
    case PushBottom(_, _) => PushBottomKeeps(s);
    case PopTop(_) => PopTopKeeps(s);
    case PopRace(_, _) => PopRaceKeeps(s);
    case PopClaim(_) => PopKeeps(s);
    case PopLoad(_, _) => PopKeeps(s);
    case PopRestore(_, _) => PopKeeps(s);
    case PushTop(_, _) => OwnerMoves(s, StepOwner(s));
    case PushStorage(_, _, _) => PushStorageKeeps(s);
    case PushGrown(_, _, _) => PushGrownKeeps(s);
  }

  lemma JoinKeeps<T>(s: State<T>)
    requires Inv(s)
    ensures Inv(s.(thieves := s.thieves + [Away(None)]))
  {
    var s' := s.(thieves := s.thieves + [Away(None)]);
    assert OwnerOk(s');
    forall j | 0 <= j < |s'.thieves| ensures ThiefOk(s', s'.thieves[j]) {
      if j < |s.thieves| { assert ThiefOk(s, s.thieves[j]); }
    }
  }

  lemma StepKeeps<T>(s: State<T>, a: Action<T>)
    requires Inv(s) && Enabled(s, a)
    ensures Inv(Apply(s, a))
  {
    var s' := Apply(s, a);
    match a
    case Push(_) => OwnerMoves(s, s');
    case Pop => OwnerMoves(s, s');
    case OwnerStep => OwnerKeeps(s);
    case Join => JoinKeeps(s);
    case Steal(i) => OneThief(s, i, StealBottom(s.top));
    case ThiefStep(i) =>
      if s.thieves[i].StealRace? && s.thieves[i].t == s.top { StealWins(s, i); } else { ThiefKeeps(s, i); }
  }

  ghost predicate Allowed<T>(s: State<T>, run: seq<Action<T>>)
    decreases |run|
  {
    run == [] || (Enabled(s, run[0]) && Allowed(Apply(s, run[0]), run[1..]))
  }

  ghost function Exec<T>(s: State<T>, run: seq<Action<T>>): State<T>
    requires Allowed(s, run)
    decreases |run|
  {
    if run == [] then s else Exec(Apply(s, run[0]), run[1..])
  }

  lemma {:induction false} RunsKeep<T>(s: State<T>, run: seq<Action<T>>)
    requires Inv(s) && Allowed(s, run)
    ensures Inv(Exec(s, run))
    decreases |run|
  {
    if run != [] {
      StepKeeps(s, run[0]);
      RunsKeep(Apply(s, run[0]), run[1..]);
    }
  }

  /**
   For any initial capacity, any number of thieves and any interleaving: the effects form a legal history of a
   sequential deque, the values returned are those of that history in its order, and pushed = popped + stolen +
   still held.  A pop that has taken effect but not returned owes exactly its value.
   */
  lemma ExactlyOnce<T>(capacity: nat, log: nat, run: seq<Action<T>>)
    requires BitCeil(capacity) == Pow2(log) && Allowed(Init(capacity, log), run)
    ensures var s := Exec(Init(capacity, log), run);
      && Inv(s) && Legal(s.record.hist)
      && PopsOf(s.record.hist) == s.record.pops + Owed(s) && StealsOf(s.record.hist) == s.record.steals
      && Accounted(PushesOf(s.record.hist), s.record.pops + Owed(s), s.record.steals, Items(s.record.hist))
  {
    var s0 := Init<T>(capacity, log);
    assert Inv(s0);
    RunsKeep(s0, run);
    Conservation(Exec(s0, run).record.hist);
  }

  /** No step is ever stuck: indices stay non-negative and no thief looks at a ring that does not exist. */
  lemma NeverStuck<T>(s: State<T>, i: nat)
    requires Inv(s)
    ensures !s.owner.Idle? ==> Enabled(s, OwnerStep)
    ensures i < |s.thieves| && !s.thieves[i].Away? ==> Enabled(s, ThiefStep(i))
  {
    if i < |s.thieves| { assert ThiefOk(s, s.thieves[i]); }
  }

  /** A thief that gives up at once saw a deque with nothing left but an item the owner is popping. */
  lemma GivesUpOnlyWhenEmpty<T>(s: State<T>, i: nat)
    requires Inv(s) && Enabled(s, ThiefStep(i)) && s.thieves[i].StealBottom? && s.thieves[i].t >= s.bottom
    ensures |Items(s.record.hist)| <=
      if s.owner.PopTop? || (s.owner.PopLoad? && s.owner.last) || s.owner.PopRace? then 1 else 0
  {
    assert ThiefOk(s, s.thieves[i]);
  }
}
