/**
 `dense_slot_map`: values kept contiguous, a reverse map from value to slot, an indirection array from slot to
 value, a free list threaded through the indirection entries, and handles with wrapping generations.

 The abstraction is a finite map whose keys are never reused: a slot and the number of times that slot has been
 invalidated (`epoch`).  A handle is a key with its epoch reduced to the bits the handle has for it.
 */
module SlotLinks {
  import opened Arithmetic

  /** slot_map_handle, also the type of the indirection entries. */
  datatype Handle = Handle(index: nat, generation: nat)

  datatype Key = Key(slot: nat, epoch: nat)

  /** Reverse map and indirection are inverse on live data; every other slot is on the free list. */
  ghost predicate Linked(reverse: seq<nat>, slots: seq<Handle>, free: seq<nat>) {
    && (forall i :: 0 <= i < |reverse| ==> reverse[i] < |slots| && slots[reverse[i]].index == i)
    && (forall s {:trigger s in free} :: 0 <= s < |slots| ==>
          (s !in free <==> slots[s].index < |reverse| && reverse[slots[s].index] == s))
  }

  /** The chain from head reaches tail and visits each free slot once; head is the slot count iff none is free. */
  ghost predicate Chained(slots: seq<Handle>, free: seq<nat>, head: nat, tail: nat) {
    && (forall j :: 0 <= j < |free| ==> free[j] < |slots|)
    && (forall i, j :: 0 <= i < j < |free| ==> free[i] != free[j])
    && (if free == [] then head == tail == |slots| else head == free[0] && tail == free[|free| - 1])
    && (forall i, j {:trigger free[i], free[j]} :: 0 <= i && j == i + 1 < |free| ==> slots[free[i]].index == free[j])
  }

  /** A fresh slot whose entry is the old head becomes the new head; with nothing free it is the tail as well. */
  lemma PushFree(reverse: seq<nat>, slots: seq<Handle>, free: seq<nat>, head: nat, tail: nat, entry: Handle)
    requires Linked(reverse, slots, free) && Chained(slots, free, head, tail)
    requires free != [] ==> entry.index == head
    ensures Linked(reverse, slots + [entry], [|slots|] + free)
    ensures Chained(slots + [entry], [|slots|] + free, |slots|, tail)
  {
    assert |slots| !in free;
  }

  /** The head of the free list becomes the slot of the next value. */
  lemma TakeFree(reverse: seq<nat>, slots: seq<Handle>, free: seq<nat>, head: nat, tail: nat)
    requires Linked(reverse, slots, free) && Chained(slots, free, head, tail) && free != []
    ensures head < |slots| && head !in free[1..]
    ensures var slots' := slots[head := slots[head].(index := |reverse|)];
      && Linked(reverse + [head], slots', free[1..])
      && if head == tail then Chained(slots', free[1..], |slots|, |slots|)
         else Chained(slots', free[1..], slots[head].index, tail)
  {
    assert forall s :: s in free <==> s == head || s in free[1..];
  }

  /** Freeing a slot moves the last value into the gap and redirects the slot that owned it. */
  lemma FreeLinked(reverse: seq<nat>, slots: seq<Handle>, free: seq<nat>, slot: nat, generation: nat)
    requires Linked(reverse, slots, free) && slot < |slots| && slot !in free
    ensures |reverse| > 0 && slots[slot].index < |reverse| && reverse[|reverse| - 1] < |slots|
    ensures Linked(Fill(reverse, slots[slot].index), Unlink(reverse, slots, slot, generation), free + [slot])
  {
    var i, last := slots[slot].index, |reverse| - 1;
    var slots' := Unlink(reverse, slots, slot, generation);
    var reverse' := Fill(reverse, i);
    var free' := free + [slot];
    forall j | 0 <= j < |reverse'|
      ensures reverse'[j] < |slots'| && slots'[reverse'[j]].index == j && reverse'[j] !in free'
    {
      assert slots[reverse[j]].index == j && slots[reverse[last]].index == last;
    }
    forall s | 0 <= s < |slots'| && s !in free'
      ensures slots'[s].index < |reverse'| && reverse'[slots'[s].index] == s
    {
      assert s !in free && s != slot;
    }
  }

  /** The free list does not see the live slots that change. */
  lemma UnlinkChained(reverse: seq<nat>, slots: seq<Handle>, free: seq<nat>, head: nat, tail: nat, slot: nat,
                      generation: nat)
    requires Linked(reverse, slots, free) && Chained(slots, free, head, tail) && slot < |slots| && slot !in free
    ensures |reverse| > 0 && reverse[|reverse| - 1] < |slots|
    ensures Chained(Unlink(reverse, slots, slot, generation), free, head, tail)
  {
    var slots' := Unlink(reverse, slots, slot, generation);
    forall j | 0 <= j < |free| ensures slots'[free[j]].index == slots[free[j]].index {
      assert free[j] in free;
    }
  }

  /** ... and appends the slot to the free list. */
  lemma FreeChained(slots: seq<Handle>, free: seq<nat>, head: nat, tail: nat, slot: nat)
    requires Chained(slots, free, head, tail) && slot < |slots| && slot !in free
    ensures if free == [] then Chained(slots, [slot], slot, slot)
            else tail < |slots| && Chained(slots[tail := slots[tail].(index := slot)], free + [slot], head, slot)
  {
    if free != [] {
      var f := free + [slot];
      var last := slots[tail := slots[tail].(index := slot)];
      forall j | 0 <= j < |f| - 1 ensures last[f[j]].index == f[j + 1] {
        if j < |free| - 1 {
          assert free[j] in free && free[j] != tail;
        }
      }
    }
  }

  function Chain(slots: seq<Handle>, head: nat, tail: nat, slot: nat): (r: seq<Handle>)
    requires head != |slots| ==> tail < |slots|
    ensures |r| == |slots|
  {
    if head == |slots| then slots else slots[tail := slots[tail].(index := slot)]
  }

  lemma Unended(slots: seq<Handle>, free: seq<nat>, head: nat, tail: nat)
    requires Chained(slots, free, head, tail)
    ensures head == |slots| <==> free == []
  {}

  /** Entries fit the handle's bits, and a slot's current epoch was handed out iff the slot is in use. */
  ghost predicate Ticketed(slots: seq<Handle>, free: seq<nat>, epoch: seq<nat>, issued: set<Key>,
                           generations: nat, maxSize: nat)
  {
    && |epoch| == |slots| && generations >= 1
    && (forall s :: 0 <= s < |slots| ==> slots[s].index <= maxSize && slots[s].generation == epoch[s] % generations)
    && (forall k :: k in issued ==> k.slot < |slots| && k.epoch <= epoch[k.slot])
    && (forall s {:trigger Key(s, epoch[s])} :: 0 <= s < |slots| ==> (Key(s, epoch[s]) in issued <==> s !in free))
  }

  ghost function Keys(free: seq<nat>, epoch: seq<nat>): (ks: set<Key>) {
    set s | 0 <= s < |epoch| && s !in free :: Key(s, epoch[s])
  }

  lemma KeysAre(free: seq<nat>, epoch: seq<nat>, k: Key)
    ensures k in Keys(free, epoch) <==> k.slot < |epoch| && k.slot !in free && k.epoch == epoch[k.slot]
  {
    if k.slot < |epoch| && k.slot !in free && k.epoch == epoch[k.slot] {
      assert Key(k.slot, epoch[k.slot]) == k;
    }
  }

  /** The finite map the arrays stand for. */
  ghost function Contents<T>(values: seq<T>, reverse: seq<nat>, slots: seq<Handle>, free: seq<nat>,
                             epoch: seq<nat>): (m: map<Key, T>)
    requires Linked(reverse, slots, free) && |reverse| == |values| && |epoch| == |slots|
    ensures m.Keys == Keys(free, epoch)
  {
    map k | k in Keys(free, epoch) :: values[slots[k.slot].index]
  }

  lemma PushFreeContents<T>(values: seq<T>, reverse: seq<nat>, slots: seq<Handle>, free: seq<nat>,
                            epoch: seq<nat>, entry: Handle)
    requires Linked(reverse, slots, free) && |reverse| == |values| && |epoch| == |slots|
    requires Linked(reverse, slots + [entry], [|slots|] + free)
    ensures Contents(values, reverse, slots + [entry], [|slots|] + free, epoch + [0]) ==
            Contents(values, reverse, slots, free, epoch)
  {
    var f := [|slots|] + free;
    assert forall s :: s in f <==> s == |slots| || s in free;
    forall k: Key ensures k in Keys(f, epoch + [0]) <==> k in Keys(free, epoch) {
      KeysAre(f, epoch + [0], k);
      KeysAre(free, epoch, k);
    }
  }

  lemma PushFreeTickets(slots: seq<Handle>, free: seq<nat>, epoch: seq<nat>, issued: set<Key>,
                        generations: nat, maxSize: nat, entry: Handle)
    requires Ticketed(slots, free, epoch, issued, generations, maxSize)
    requires entry.index <= maxSize && entry.generation == 0 && 0 % generations == 0
    ensures Ticketed(slots + [entry], [|slots|] + free, epoch + [0], issued, generations, maxSize)
  {
    var f := [|slots|] + free;
    assert forall s :: s in f <==> s == |slots| || s in free;
  }

  lemma TakeFreeContents<T>(values: seq<T>, reverse: seq<nat>, slots: seq<Handle>, free: seq<nat>,
                            epoch: seq<nat>, v: T)
    requires Linked(reverse, slots, free) && |reverse| == |values| && |epoch| == |slots|
    requires free != [] && free[0] < |slots| && free[0] !in free[1..]
    requires Linked(reverse + [free[0]], slots[free[0] := slots[free[0]].(index := |reverse|)], free[1..])
    ensures var h := free[0];
      Contents(values + [v], reverse + [h], slots[h := slots[h].(index := |reverse|)], free[1..], epoch) ==
      Contents(values, reverse, slots, free, epoch)[Key(h, epoch[h]) := v]
  {
    var h := free[0];
    assert forall s :: s in free <==> s == h || s in free[1..];
    forall k: Key ensures k in Keys(free[1..], epoch) <==> k in Keys(free, epoch) || k == Key(h, epoch[h]) {
      KeysAre(free[1..], epoch, k);
      KeysAre(free, epoch, k);
    }
  }

  lemma TakeFreeTickets(slots: seq<Handle>, free: seq<nat>, epoch: seq<nat>, issued: set<Key>,
                        generations: nat, maxSize: nat, index: nat)
    requires Ticketed(slots, free, epoch, issued, generations, maxSize) && index <= maxSize
    requires free != [] && free[0] < |slots| && free[0] !in free[1..]
    ensures var h := free[0];
      && Key(h, epoch[h]) !in issued
      && Ticketed(slots[h := slots[h].(index := index)], free[1..], epoch, issued + {Key(h, epoch[h])},
                  generations, maxSize)
  {
    assert forall s :: s in free <==> s == free[0] || s in free[1..];
  }

  /** The last element moved to position i and dropped from the end. */
  function Fill<T>(vs: seq<T>, i: nat): (r: seq<T>)
    requires i < |vs|
    ensures |r| == |vs| - 1
  {
    vs[i := vs[|vs| - 1]][..|vs| - 1]
  }

  /** The indirection entries after the value of `slot` was overwritten by the last one. */
  function Unlink(reverse: seq<nat>, slots: seq<Handle>, slot: nat, generation: nat): (r: seq<Handle>)
    requires slot < |slots| && |reverse| > 0 && reverse[|reverse| - 1] < |slots|
    ensures |r| == |slots|
  {
    var i, last := slots[slot].index, |reverse| - 1;
    var slots1 := slots[slot := slots[slot].(generation := generation)];
    if i == last then slots1 else slots1[reverse[last] := slots1[reverse[last]].(index := i)]
  }

  /** Every other live slot still leads to its value. */
  lemma FreeValue<T>(values: seq<T>, reverse: seq<nat>, slots: seq<Handle>, free: seq<nat>, slot: nat,
                     generation: nat, s: nat)
    requires Linked(reverse, slots, free) && |reverse| == |values|
    requires slot < |slots| && slot !in free && s < |slots| && s !in free && s != slot
    ensures |reverse| > 0 && slots[slot].index < |reverse| && reverse[|reverse| - 1] < |slots|
    ensures var j := Unlink(reverse, slots, slot, generation)[s].index;
      j < |values| - 1 && Fill(values, slots[slot].index)[j] == values[slots[s].index]
  {
    var i, last := slots[slot].index, |reverse| - 1;
    assert reverse[slots[s].index] == s && reverse[i] == slot;
    if reverse[last] == s {
      assert slots[s].index == last;
    } else {
      assert slots[s].index != last;
    }
  }

  lemma FreeContents<T>(values: seq<T>, reverse: seq<nat>, slots: seq<Handle>, free: seq<nat>, epoch: seq<nat>,
                        slot: nat, generation: nat)
    requires Linked(reverse, slots, free) && |reverse| == |values| && |epoch| == |slots|
    requires slot < |slots| && slot !in free
    ensures |reverse| > 0 && slots[slot].index < |reverse| && reverse[|reverse| - 1] < |slots|
    ensures var i, slots' := slots[slot].index, Unlink(reverse, slots, slot, generation);
      && Linked(Fill(reverse, i), slots', free + [slot])
      && Contents(Fill(values, i), Fill(reverse, i), slots', free + [slot], epoch[slot := epoch[slot] + 1]) ==
         Contents(values, reverse, slots, free, epoch) - {Key(slot, epoch[slot])}
  {
    FreeLinked(reverse, slots, free, slot, generation);
    var i := slots[slot].index;
    var slots' := Unlink(reverse, slots, slot, generation);
    var free', epoch' := free + [slot], epoch[slot := epoch[slot] + 1];
    var m := Contents(values, reverse, slots, free, epoch) - {Key(slot, epoch[slot])};
    var m' := Contents(Fill(values, i), Fill(reverse, i), slots', free', epoch');
    FreeKeys(free, epoch, slot);
    assert m'.Keys == m.Keys;
    forall k | k in m' ensures m'[k] == m[k] {
      KeysAre(free, epoch, k);
      FreeValue(values, reverse, slots, free, slot, generation, k.slot);
    }
  }

  lemma FreeKeys(free: seq<nat>, epoch: seq<nat>, slot: nat)
    requires slot < |epoch| && slot !in free
    ensures Keys(free + [slot], epoch[slot := epoch[slot] + 1]) == Keys(free, epoch) - {Key(slot, epoch[slot])}
  {
    assert forall s :: s in free + [slot] <==> s in free || s == slot;
    forall k: Key
      ensures k in Keys(free + [slot], epoch[slot := epoch[slot] + 1]) <==>
              k in Keys(free, epoch) && k != Key(slot, epoch[slot])
    {
      KeysAre(free + [slot], epoch[slot := epoch[slot] + 1], k);
      KeysAre(free, epoch, k);
    }
  }

  /** The old tail's entry is redirected: nothing a handle can see. */
  lemma FreeEntryContents<T>(values: seq<T>, reverse: seq<nat>, slots: seq<Handle>, free: seq<nat>,
                             epoch: seq<nat>, s: nat, entry: Handle)
    requires Linked(reverse, slots, free) && |reverse| == |values| && |epoch| == |slots|
    requires s < |slots| && s in free
    ensures Linked(reverse, slots[s := entry], free)
    ensures Contents(values, reverse, slots[s := entry], free, epoch) == Contents(values, reverse, slots, free, epoch)
  {
    forall k | k in Keys(free, epoch) ensures k.slot != s {
      KeysAre(free, epoch, k);
    }
  }

  lemma NextGeneration(e: nat, g: nat)
    requires g >= 1
    ensures (e % g + 1) % g == (e + 1) % g
  {
    DivModLaw(e, g);
    SameRemainder(e + 1, e % g + 1, g);
    DivModUnique(e - e % g, g, e / g, 0);
  }

  lemma FreeTickets(reverse: seq<nat>, slots: seq<Handle>, free: seq<nat>, epoch: seq<nat>, issued: set<Key>,
                    generations: nat, maxSize: nat, slot: nat)
    requires Ticketed(slots, free, epoch, issued, generations, maxSize)
    requires slot < |slots| && slot !in free && |reverse| > 0 && reverse[|reverse| - 1] < |slots|
    ensures Ticketed(Unlink(reverse, slots, slot, (slots[slot].generation + 1) % generations), free + [slot],
                     epoch[slot := epoch[slot] + 1], issued, generations, maxSize)
  {
    NextGeneration(epoch[slot], generations);
    assert forall s :: s in free + [slot] <==> s in free || s == slot;
    assert Key(slot, epoch[slot] + 1) !in issued;
  }

  lemma FreeEntryTickets(slots: seq<Handle>, free: seq<nat>, epoch: seq<nat>, issued: set<Key>,
                         generations: nat, maxSize: nat, s: nat, index: nat)
    requires Ticketed(slots, free, epoch, issued, generations, maxSize) && s < |slots| && index <= maxSize
    ensures Ticketed(slots[s := slots[s].(index := index)], free, epoch, issued, generations, maxSize)
  {}

  /** Appending a freed slot to the free list. */
  lemma Appended<T>(values: seq<T>, reverse: seq<nat>, slots: seq<Handle>, free: seq<nat>, epoch: seq<nat>,
                    issued: set<Key>, generations: nat, maxSize: nat, head: nat, tail: nat, slot: nat)
    requires Linked(reverse, slots, free + [slot]) && |reverse| == |values| && |epoch| == |slots| <= maxSize
    requires Chained(slots, free, head, tail) && slot < |slots| && slot !in free
    requires Ticketed(slots, free + [slot], epoch, issued, generations, maxSize)
    ensures head != |slots| ==> tail < |slots|
    ensures var slots' := Chain(slots, head, tail, slot);
      && Linked(reverse, slots', free + [slot])
      && Chained(slots', free + [slot], if head == |slots| then slot else head, slot)
      && Ticketed(slots', free + [slot], epoch, issued, generations, maxSize)
      && Contents(values, reverse, slots', free + [slot], epoch) ==
         Contents(values, reverse, slots, free + [slot], epoch)
  {
    FreeChained(slots, free, head, tail, slot);
    Unended(slots, free, head, tail);
    if head != |slots| {
      assert tail in free + [slot];
      FreeEntryContents(values, reverse, slots, free + [slot], epoch, tail, slots[tail].(index := slot));
      FreeEntryTickets(slots, free + [slot], epoch, issued, generations, maxSize, tail, slot);
    } else {
      assert free + [slot] == [slot];
    }
  }

  /** All the fields, and what they are ghost copies of. */
  datatype Arrays<T> = Arrays(values: seq<T>, reverse: seq<nat>, slots: seq<Handle>, head: nat, tail: nat,
                              free: seq<nat>, epoch: seq<nat>)

  ghost predicate WellFormed<T>(a: Arrays<T>, issued: set<Key>, generations: nat, maxSize: nat) {
    && |a.reverse| == |a.values| && |a.free| + |a.values| == |a.slots| <= maxSize
    && Linked(a.reverse, a.slots, a.free) && Chained(a.slots, a.free, a.head, a.tail)
    && Ticketed(a.slots, a.free, a.epoch, issued, generations, maxSize)
  }

  ghost function MapOf<T>(a: Arrays<T>): (m: map<Key, T>)
    requires Linked(a.reverse, a.slots, a.free) && |a.reverse| == |a.values| && |a.epoch| == |a.slots|
    ensures m.Keys == Keys(a.free, a.epoch)
  {
    Contents(a.values, a.reverse, a.slots, a.free, a.epoch)
  }

  /** Before the slot is appended to the free list. */
  function Unlinked<T>(a: Arrays<T>, slot: nat, generation: nat): Arrays<T>
    requires slot < |a.slots| && slot < |a.epoch| && |a.values| == |a.reverse| && a.slots[slot].index < |a.reverse|
    requires a.reverse[|a.reverse| - 1] < |a.slots|
  {
    a.(values := Fill(a.values, a.slots[slot].index), reverse := Fill(a.reverse, a.slots[slot].index),
       slots := Unlink(a.reverse, a.slots, slot, generation), free := a.free + [slot],
       epoch := a.epoch[slot := a.epoch[slot] + 1])
  }

  /** What erase_valid_handle makes of the fields. */
  function Erasure<T>(a: Arrays<T>, slot: nat, generation: nat): Arrays<T>
    requires slot < |a.slots| && slot < |a.epoch| && |a.values| == |a.reverse| && a.slots[slot].index < |a.reverse|
    requires a.reverse[|a.reverse| - 1] < |a.slots| && (a.head != |a.slots| ==> a.tail < |a.slots|)
  {
    var m := Unlinked(a, slot, generation);
    m.(slots := Chain(m.slots, a.head, a.tail, slot), head := if a.head == |a.slots| then slot else a.head,
       tail := slot)
  }

  /** On a slot in use it takes the slot's key out of the map. */
  lemma Erased<T>(a: Arrays<T>, b: Arrays<T>, slot: nat, next: nat, issued: set<Key>, generations: nat, maxSize: nat)
    requires WellFormed(a, issued, generations, maxSize) && slot < |a.slots| && slot !in a.free
    requires a.slots[slot].index < |a.reverse| && a.reverse[|a.reverse| - 1] < |a.slots|
    requires a.head != |a.slots| ==> a.tail < |a.slots|
    requires next == (a.slots[slot].generation + 1) % generations && b == Erasure(a, slot, next)
    ensures WellFormed(b, issued, generations, maxSize)
    ensures MapOf(b) == MapOf(a) - {Key(slot, a.epoch[slot])}
  {
    var m := Unlinked(a, slot, next);
    UnlinkedMap(a, m, slot, next);
    UnlinkedTickets(a, m, slot, next, issued, generations, maxSize);
    UnlinkChained(a.reverse, a.slots, a.free, a.head, a.tail, slot, next);
    Appended(m.values, m.reverse, m.slots, a.free, m.epoch, issued, generations, maxSize, a.head, a.tail, slot);
  }

  lemma UnlinkedMap<T>(a: Arrays<T>, m: Arrays<T>, slot: nat, generation: nat)
    requires Linked(a.reverse, a.slots, a.free) && |a.reverse| == |a.values| && |a.epoch| == |a.slots|
    requires slot < |a.slots| && slot !in a.free && |a.reverse| > 0 && a.slots[slot].index < |a.reverse|
    requires a.reverse[|a.reverse| - 1] < |a.slots| && m == Unlinked(a, slot, generation)
    ensures Linked(m.reverse, m.slots, m.free) && |m.reverse| == |m.values| && |m.epoch| == |m.slots|
    ensures MapOf(m) == MapOf(a) - {Key(slot, a.epoch[slot])}
  {
    FreeContents(a.values, a.reverse, a.slots, a.free, a.epoch, slot, generation);
  }

  lemma UnlinkedTickets<T>(a: Arrays<T>, m: Arrays<T>, slot: nat, next: nat, issued: set<Key>, generations: nat,
                           maxSize: nat)
    requires Ticketed(a.slots, a.free, a.epoch, issued, generations, maxSize) && |a.reverse| == |a.values|
    requires slot < |a.slots| && slot !in a.free && |a.reverse| > 0 && a.slots[slot].index < |a.reverse|
    requires a.reverse[|a.reverse| - 1] < |a.slots|
    requires next == (a.slots[slot].generation + 1) % generations && m == Unlinked(a, slot, next)
    ensures Ticketed(m.slots, m.free, m.epoch, issued, generations, maxSize)
  {
    FreeTickets(a.reverse, a.slots, a.free, a.epoch, issued, generations, maxSize, slot);
  }

  /** Two chains from one head along the same links. */
  lemma {:induction false} SamePath(slots: seq<Handle>, free: seq<nat>, f: seq<nat>, head: nat, tail: nat, k: nat)
    requires Chained(slots, f, head, tail) && k < |free| && k < |f| && head == free[0]
    requires forall j :: 0 <= j < |free| ==> free[j] < |slots|
    requires forall i, j {:trigger free[i], free[j]} :: 0 <= i && j == i + 1 < |free| ==>
      slots[free[i]].index == free[j]
    ensures f[k] == free[k]
  {
    if k > 0 {
      SamePath(slots, free, f, head, tail, k - 1);
      assert slots[f[k - 1]].index == f[k] && slots[free[k - 1]].index == free[k];
    }
  }

  /** On a free slot the list is left with a cycle in it: no chain from head to tail has as many slots as are free. */
  lemma ErasedFree<T>(a: Arrays<T>, b: Arrays<T>, slot: nat, next: nat, f: seq<nat>)
    requires |a.reverse| == |a.values| && |a.free| + |a.values| == |a.slots| == |a.epoch|
    requires Linked(a.reverse, a.slots, a.free) && Chained(a.slots, a.free, a.head, a.tail)
    requires slot in a.free && slot < |a.slots| && a.slots[slot].index < |a.reverse|
    requires a.reverse[|a.reverse| - 1] < |a.slots| && a.tail < |a.slots| && b == Erasure(a, slot, next)
    ensures |f| + |b.values| == |b.slots| ==> !Chained(b.slots, f, b.head, b.tail)
  {
    var last := |a.free| - 1;
    var live := a.reverse[|a.reverse| - 1];
    assert live !in a.free;
    forall j | 0 <= j < |a.free|
      ensures b.slots[a.free[j]].index == if j == last then slot else a.slots[a.free[j]].index
    {
      assert a.free[j] in a.free && (j < last ==> a.free[j] != a.free[last]);
    }
    if |f| + |b.values| == |b.slots| && Chained(b.slots, f, b.head, b.tail) {
      forall k | 0 <= k <= last ensures f[k] == a.free[k] {
        SamePath(b.slots, a.free, f, b.head, b.tail, k);
      }
      assert false;
    }
  }

  /** No free list makes sense of the links: with every slot on it that holds no value, it has no chain. */
  ghost predicate Unchained<T>(a: Arrays<T>) {
    forall f: seq<nat> :: |f| + |a.values| == |a.slots| ==> !Chained(a.slots, f, a.head, a.tail)
  }

  lemma Ruins<T>(a: Arrays<T>, b: Arrays<T>, slot: nat, next: nat, issued: set<Key>, generations: nat, maxSize: nat)
    requires WellFormed(a, issued, generations, maxSize) && slot in a.free && a.slots[slot].index < |a.reverse|
    requires slot < |a.slots| && a.reverse[|a.reverse| - 1] < |a.slots| && a.tail < |a.slots|
    requires b == Erasure(a, slot, next)
    ensures Unchained(b)
  {
    forall f: seq<nat> | |f| + |b.values| == |b.slots| ensures !Chained(b.slots, f, b.head, b.tail) {
      ErasedFree(a, b, slot, next, f);
    }
  }

  lemma ErasedOrRuined<T>(a: Arrays<T>, b: Arrays<T>, slot: nat, next: nat, issued: set<Key>, generations: nat,
                          maxSize: nat)
    requires WellFormed(a, issued, generations, maxSize) && slot < |a.slots| && a.slots[slot].index < |a.reverse|
    requires a.reverse[|a.reverse| - 1] < |a.slots| && (a.head != |a.slots| ==> a.tail < |a.slots|)
    requires next == (a.slots[slot].generation + 1) % generations && b == Erasure(a, slot, next)
    ensures if slot in a.free then Unchained(b)
            else WellFormed(b, issued, generations, maxSize) && MapOf(b) == MapOf(a) - {Key(slot, a.epoch[slot])}
  {
    Unended(a.slots, a.free, a.head, a.tail);
    if slot in a.free {
      Ruins(a, b, slot, next, issued, generations, maxSize);
    } else {
      Erased(a, b, slot, next, issued, generations, maxSize);
    }
  }

  /** The keys of the first n values. */
  ghost function FirstKeys(reverse: seq<nat>, epoch: seq<nat>, n: nat): set<Key>
    requires n <= |reverse| && forall i :: 0 <= i < |reverse| ==> reverse[i] < |epoch|
  {
    set i | 0 <= i < n :: Key(reverse[i], epoch[reverse[i]])
  }

  lemma {:induction false} FirstKeysSize(reverse: seq<nat>, slots: seq<Handle>, epoch: seq<nat>, n: nat)
    requires n <= |reverse| && |epoch| == |slots|
    requires forall i :: 0 <= i < |reverse| ==> reverse[i] < |slots| && slots[reverse[i]].index == i
    ensures |FirstKeys(reverse, epoch, n)| == n
  {
    if n > 0 {
      FirstKeysSize(reverse, slots, epoch, n - 1);
      var k := Key(reverse[n - 1], epoch[reverse[n - 1]]);
      forall i | 0 <= i < n - 1 ensures reverse[i] != k.slot {
        assert slots[reverse[i]].index == i && slots[reverse[n - 1]].index == n - 1;
      }
      assert FirstKeys(reverse, epoch, n) == FirstKeys(reverse, epoch, n - 1) + {k};
    }
  }

  ghost function Upto(n: nat): (r: seq<nat>)
    ensures |r| == n && forall s :: 0 <= s < n ==> r[s] == s
  {
    if n == 0 then [] else Upto(n - 1) + [n - 1]
  }

  ghost function Raised(epoch: seq<nat>): (r: seq<nat>)
    ensures |r| == |epoch| && forall s :: 0 <= s < |r| ==> r[s] == epoch[s] + 1
  {
    if epoch == [] then [] else [epoch[0] + 1] + Raised(epoch[1..])
  }

  /** clear: the slots are chained in order, the last one referring to itself. */
  lemma ClearedChain(slots: seq<Handle>)
    requires |slots| > 0
    requires forall s :: 0 <= s < |slots| ==> slots[s].index == if s == |slots| - 1 then s else s + 1
    ensures Linked([], slots, Upto(|slots|)) && Chained(slots, Upto(|slots|), 0, |slots| - 1)
  {
    AllFree([], slots, Upto(|slots|));
    var f := Upto(|slots|);
    assert f[0] == 0 && f[|slots| - 1] == |slots| - 1;
    forall i, j | 0 <= i && j == i + 1 < |f| ensures slots[f[i]].index == f[j] {}
  }

  lemma AllFree(reverse: seq<nat>, slots: seq<Handle>, free: seq<nat>)
    requires reverse == [] && |free| == |slots| && forall s :: 0 <= s < |slots| ==> free[s] == s
    ensures Linked(reverse, slots, free) && forall s :: 0 <= s < |slots| ==> s in free
  {
    forall s | 0 <= s < |slots| ensures s in free {
      assert free[s] in free;
    }
  }

  lemma ClearedTickets(slots: seq<Handle>, free: seq<nat>, epoch: seq<nat>, slots1: seq<Handle>,
                       issued: set<Key>, generations: nat, maxSize: nat)
    requires Ticketed(slots, free, epoch, issued, generations, maxSize) && |slots1| == |slots|
    requires forall s :: 0 <= s < |slots| ==>
      slots1[s].index <= maxSize && slots1[s].generation == (slots[s].generation + 1) % generations
    ensures Ticketed(slots1, Upto(|slots|), Raised(epoch), issued, generations, maxSize)
  {
    AllFree([], slots1, Upto(|slots|));
    forall s | 0 <= s < |slots| ensures slots1[s].generation == Raised(epoch)[s] % generations {
      assert slots[s].generation == epoch[s] % generations;
      NextGeneration(epoch[s], generations);
    }
  }

  lemma Cleared<T>(slots: seq<Handle>, free: seq<nat>, epoch: seq<nat>, b: Arrays<T>,
                   issued: set<Key>, generations: nat, maxSize: nat)
    requires Ticketed(slots, free, epoch, issued, generations, maxSize) && b.values == [] && b.reverse == []
    requires 0 < |b.slots| == |slots| <= maxSize && b.head == 0 && b.tail == |slots| - 1
    requires b.free == Upto(|slots|) && b.epoch == Raised(epoch)
    requires forall s :: 0 <= s < |slots| ==>
      && b.slots[s].index == (if s == |slots| - 1 then s else s + 1)
      && b.slots[s].generation == (slots[s].generation + 1) % generations
    ensures WellFormed(b, issued, generations, maxSize) && MapOf(b) == map[]
  {
    ClearedChain(b.slots);
    ClearedTickets(slots, free, epoch, b.slots, issued, generations, maxSize);
    AllFree(b.reverse, b.slots, b.free);
    assert Keys(b.free, b.epoch) == {};
  }
}

module DenseSlotMap {
  import opened Arithmetic
  import opened Wrappers
  import opened SlotLinks

  /** What a caller sees: the map, and the keys handed out so far. */
  datatype Model<T> = Model(view: map<Key, T>, issued: set<Key>)

  /** What an operation does to it: a new key is put in, or keys go. */
  datatype Change<T> = Put(key: Key, value: T) | Gone(keys: set<Key>)

  ghost predicate Follows<T>(m: Model<T>, c: Change<T>, m': Model<T>) {
    match c
    case Put(k, v) => k !in m.issued && m' == Model(m.view[k := v], m.issued + {k})
    case Gone(ks) => m' == Model(m.view - ks, m.issued)
  }

  ghost predicate Run<T>(ms: seq<Model<T>>, cs: seq<Change<T>>) {
    |ms| == |cs| + 1 && forall n :: 0 <= n < |cs| ==> Follows(ms[n], cs[n], ms[n + 1])
  }

  ghost predicate Erases<T>(c: Change<T>, k: Key) {
    c.Gone? && k in c.keys
  }

  /** Over any run an issued key keeps its own value until it is erased, and once gone it never comes back. */
  lemma {:induction false} KeyIsStable<T>(ms: seq<Model<T>>, cs: seq<Change<T>>, k: Key)
    requires Run(ms, cs) && k in ms[0].issued
    ensures k in ms[|cs|].issued
    ensures k in ms[|cs|].view <==> k in ms[0].view && forall n :: 0 <= n < |cs| ==> !Erases(cs[n], k)
    ensures k in ms[|cs|].view ==> ms[|cs|].view[k] == ms[0].view[k]
  {
    if cs != [] {
      var last := |cs| - 1;
      KeyIsStable(ms[..last + 1], cs[..last], k);
      assert Follows(ms[last], cs[last], ms[last + 1]);
    }
  }

  class SlotMap<T(==)> {
    const maxSize: nat      // max_index + 1, also the index of the null handle
    const generations: nat  // 2^GenerationBits

    var values: seq<T>
    var reverse: seq<nat>   // value position -> slot
    var slots: seq<Handle>  // slot -> value position, or the next free slot
    var head: nat
    var tail: nat

    ghost var free: seq<nat>     // the free list, head first
    ghost var epoch: seq<nat>    // per slot, the generation without wrap-around
    ghost var issued: set<Key>   // every key ever handed out

    // -------------------------------------------------------------- the invariant

    ghost function Fields(): Arrays<T>
      reads this
    {
      Arrays(values, reverse, slots, head, tail, free, epoch)
    }

    ghost predicate Valid()
      reads this
    {
      WellFormed(Fields(), issued, generations, maxSize)
    }

    ghost function View(): (m: map<Key, T>)
      requires Valid()
      reads this
      ensures m.Keys == Keys(free, epoch)
    {
      MapOf(Fields())
    }

    ghost function State(): Model<T>
      requires Valid()
      reads this
    {
      Model(View(), issued)
    }

    ghost function HandleOf(k: Key): Handle
      requires generations >= 1
    {
      Handle(k.slot, k.epoch % generations)
    }

    // -------------------------------------------------------------- construction and queries

    constructor (indexBits: nat, generationBits: nat)
      requires indexBits > 1 && generationBits > 0
      ensures Valid() && View() == map[] && issued == {}
      ensures maxSize == Pow2(indexBits) - 1 && generations == Pow2(generationBits)
    {
      maxSize := Pow2(indexBits) - 1;
      generations := Pow2(generationBits);
      values, reverse, slots, head, tail := [], [], [], 0, 0;
      free, epoch, issued := [], [], {};
    }

    predicate IsValid(h: Handle)
      reads this
    {
      h.index < |slots| && slots[h.index].generation == h.generation
    }

    /** What the check does not see: whether the handle's slot is free. */
    ghost predicate Usable(h: Handle)
      reads this
    {
      IsValid(h) ==> h.index !in free
    }

    /** The key a usable valid handle stands for. */
    ghost function KeyOf(h: Handle): Key
      requires h.index < |epoch|
      reads this
    {
      Key(h.index, epoch[h.index])
    }

    /**
     The pointer returned, as a position in the data.  For a handle that passes the check on a free slot it is what the
     free list has there, the next free slot: the position of another key's value, or one past the data.
     */
    method Lookup(h: Handle) returns (r: Option<nat>)
      requires Valid()
      ensures if IsValid(h) then r == Some(slots[h.index].index) else r.None?
      ensures r.Some? && Usable(h) ==>
        && r.value < |values| && reverse[r.value] == h.index
        && KeyOf(h) in View() && values[r.value] == View()[KeyOf(h)]
      ensures r.Some? && !Usable(h) ==>
        && KeyOf(h) !in View() && (r.value < |values| ==> reverse[r.value] != h.index)
        && forall j :: 0 <= j < |free| - 1 && free[j] == h.index ==> r.value == free[j + 1]
    {
      if h.index >= |slots| {
        return None;
      }
      var entry := slots[h.index];
      if entry.generation != h.generation {
        return None;
      }
      KeysAre(free, epoch, KeyOf(h));
      return Some(entry.index);
    }

    /** get_valid_handle_at: the handle of the value at a position. */
    method HandleAt(i: nat) returns (h: Handle, ghost k: Key)
      requires Valid() && i < |values|
      ensures h.index == reverse[i] < |slots| && k == KeyOf(h)
      ensures k in View() && h == HandleOf(k) && View()[k] == values[i]
    {
      h := Handle(reverse[i], slots[reverse[i]].generation);
      k := Key(reverse[i], epoch[reverse[i]]);
      KeysAre(free, epoch, k);
    }

    // -------------------------------------------------------------- what handles mean

    /** An issued key is in the map as long as its slot has not been invalidated since. */
    lemma LiveIffCurrent(k: Key)
      requires Valid() && k in issued
      ensures k in View() <==> k.epoch == epoch[k.slot]
    {
      KeysAre(free, epoch, k);
    }

    /** The handle of an issued key passes the check iff the generation has gone round a whole number of times. */
    lemma ValidIffWrapped(k: Key)
      requires Valid() && k in issued
      ensures IsValid(HandleOf(k)) <==> (epoch[k.slot] - k.epoch) % generations == 0
    {
      SameRemainder(epoch[k.slot], k.epoch, generations);
    }

    /** Until then the check is exact. */
    lemma ValidIffLive(k: Key)
      requires Valid() && k in issued && epoch[k.slot] - k.epoch < generations
      ensures IsValid(HandleOf(k)) <==> k in View()
      ensures Usable(HandleOf(k))
    {
      ValidIffWrapped(k);
      LiveIffCurrent(k);
      SmallRemainder(epoch[k.slot] - k.epoch, generations);
    }

    /** After that it passes a handle whose slot is free, or one that now stands for another key. */
    lemma StrayIffWrapped(k: Key)
      requires Valid() && k in issued
      ensures var d, h := epoch[k.slot] - k.epoch, HandleOf(k);
        && (IsValid(h) && !Usable(h) <==> d > 0 && d % generations == 0 && k.slot in free)
        && (IsValid(h) && Usable(h) && KeyOf(h) != k <==> d > 0 && d % generations == 0 && k.slot !in free)
    {
      ValidIffWrapped(k);
      LiveIffCurrent(k);
      KeysAre(free, epoch, k);
    }

    /** A handle, issued or not, is usable iff passing the check means that it stands for a key of the map. */
    lemma UsableIffKey(h: Handle)
      requires Valid()
      ensures Usable(h) <==> (IsValid(h) ==> KeyOf(h) in View())
    {
      if IsValid(h) {
        KeysAre(free, epoch, KeyOf(h));
      }
    }

    /** The null handle never refers to anything: no slot index reaches it. */
    lemma NullIsInvalid(generation: nat)
      requires Valid()
      ensures !IsValid(Handle(maxSize, generation))
      ensures forall k :: k in issued ==> HandleOf(k).index < maxSize
    {}

    // -------------------------------------------------------------- mutation

    /** reserve_slots: the new slots are chained in front of the free list, the newest first; false: too many. */
    method ReserveSlots(amount: nat) returns (ok: bool)
      requires Valid()
      modifies this
      ensures Valid() && State() == old(State()) && values == old(values)
      ensures ok <==> amount <= maxSize
      ensures |slots| == if ok && amount > old(|slots|) then amount else old(|slots|)
      ensures old(epoch) <= epoch && forall s :: old(|slots|) <= s < |slots| ==> epoch[s] == 0
    {
      if amount > maxSize {
        return false;
      }
      ok := true;
      var oldSlots := |slots|;
      if oldSlots < amount {
        AddSlot(Handle(head, 0));
        var last := amount - 1;
        var newest := oldSlots;
        while newest != last
          invariant oldSlots <= newest <= last && |slots| == newest + 1 && head == newest
          invariant Valid() && View() == old(View()) && issued == old(issued) && values == old(values)
          invariant free != [] && old(epoch) <= epoch && forall s :: oldSlots <= s < |slots| ==> epoch[s] == 0
        {
          AddSlot(Handle(newest, 0));
          newest := newest + 1;
        }
      }
    }

    /** One entry pushed back and made the head of the free list, which the entry continues. */
    method AddSlot(entry: Handle)
      requires Valid() && |slots| < maxSize && entry.generation == 0 && entry.index <= maxSize
      requires free != [] ==> entry.index == head
      modifies `slots, `head, `free, `epoch
      ensures Valid() && View() == old(View()) && head == old(|slots|)
      ensures free == [old(|slots|)] + old(free) && epoch == old(epoch) + [0] && slots == old(slots) + [entry]
    {
      PushFree(reverse, slots, free, head, tail, entry);
      SmallRemainder(0, generations);
      PushFreeContents(values, reverse, slots, free, epoch, entry);
      PushFreeTickets(slots, free, epoch, issued, generations, maxSize, entry);
      free, epoch := [|slots|] + free, epoch + [0];
      head := |slots|;
      slots := slots + [entry];
    }

    /** emplace: None when the container is full; otherwise the handle of a key never issued before. */
    method Emplace(v: T) returns (r: Option<Handle>, ghost k: Key)
      requires Valid()
      modifies this
      ensures Valid()
      ensures r.None? <==> old(|values|) >= maxSize
      ensures r.None? ==> State() == old(State())
      ensures r.Some? ==>
        && Follows(old(State()), Put(k, v), State()) && r.value == HandleOf(k) && values == old(values) + [v]
        && old(epoch) <= epoch && k.slot < |epoch| && epoch[k.slot] == k.epoch
    {
      k := Key(head, 0);
      if |values| >= maxSize {
        return None, k;
      }
      var slot := head;
      var needsNew := head == |slots|;
      var newSlots := |slots| + if needsNew then 1 else 0;
      var markEmpty := needsNew || head == tail;
      if needsNew {
        AddSlot(Handle(newSlots, 0));
      }
      var h;
      h, k := Occupy(slot, v, newSlots, markEmpty);
      r := Some(h);
    }

    /** The value goes to the end of the data and to the slot at the head of the free list. */
    method Occupy(slot: nat, v: T, newSlots: nat, markEmpty: bool) returns (h: Handle, ghost k: Key)
      requires Valid() && free != [] && slot == head && newSlots == |slots| && (markEmpty <==> head == tail)
      modifies this
      ensures Valid() && k !in old(issued) && issued == old(issued) + {k} && h == HandleOf(k)
      ensures View() == old(View())[k := v] && values == old(values) + [v]
      ensures epoch == old(epoch) && k == Key(slot, epoch[slot])
    {
      TakeFree(reverse, slots, free, head, tail);
      TakeFreeContents(values, reverse, slots, free, epoch, v);
      TakeFreeTickets(slots, free, epoch, issued, generations, maxSize, |reverse|);
      var entry := slots[slot];
      var position := |values|;
      values, reverse := values + [v], reverse + [slot];
      slots := slots[slot := entry.(index := position)];
      if markEmpty {
        tail, head := newSlots, newSlots;
      } else {
        head := entry.index;
      }
      k := Key(slot, epoch[slot]);
      free, issued := free[1..], issued + {k};
      h := Handle(slot, entry.generation);
    }

    /** The position found for the handle is one of a value: what the accesses of erase_valid_handle need. */
    predicate InData(h: Handle)
      reads this
    {
      IsValid(h) ==> slots[h.index].index < |values|
    }

    ghost predicate Ruined()
      reads this
    {
      Unchained(Fields())
    }

    /**
     erase_valid_handle: the key leaves the map and the last value takes its place in the data.  On a free slot another
     key's value is dropped and the free list runs into a cycle.
     */
    method EraseValid(h: Handle)
      requires Valid() && h.index < |slots| && slots[h.index].index < |values|
      modifies this
      ensures issued == old(issued) && epoch == old(epoch[h.index := epoch[h.index] + 1])
      ensures old(|values|) == |values| + 1 && values == old(Fill(values, slots[h.index].index))
      ensures old(h.index !in free) ==> Valid() && View() == old(View()) - {old(KeyOf(h))}
      ensures old(h.index in free) ==> Ruined()
    {
      ghost var a := Fields();
      Unended(slots, free, head, tail);
      ghost var next := (slots[h.index].generation + 1) % generations;
      EraseSlot(h.index);
      ErasedOrRuined(a, Fields(), h.index, next, issued, generations, maxSize);
    }

    method EraseSlot(slot: nat)
      requires slot < |slots| && slot < |epoch| && |reverse| == |values| && generations >= 1
      requires slots[slot].index < |values| && reverse[|values| - 1] < |slots| && (head != |slots| ==> tail < |slots|)
      modifies this
      ensures Fields() == old(Erasure(Fields(), slot, (slots[slot].generation + 1) % generations))
      ensures issued == old(issued)
    {
      MoveLastInto(slot);
      Recycle(slot);
      epoch := epoch[slot := epoch[slot] + 1];
    }

    /** Steps the slot's generation and overwrites its value with the last one, unless it is the last itself. */
    method MoveLastInto(slot: nat)
      requires slot < |slots| && |reverse| == |values| > 0 && generations >= 1
      requires slots[slot].index < |values| && reverse[|values| - 1] < |slots|
      modifies `slots, `values, `reverse
      ensures slots == old(Unlink(reverse, slots, slot, (slots[slot].generation + 1) % generations))
      ensures values == old(Fill(values, slots[slot].index))
      ensures reverse == old(Fill(reverse, slots[slot].index))
    {
      slots := slots[slot := slots[slot].(generation := (slots[slot].generation + 1) % generations)];
      var dataIndex := slots[slot].index;
      var last := |values| - 1;
      if dataIndex != last {
        values := values[dataIndex := values[last]];
        reverse := reverse[dataIndex := reverse[last]];
        slots := slots[reverse[dataIndex] := slots[reverse[dataIndex]].(index := dataIndex)];
      }
      values, reverse := values[..last], reverse[..last];
    }

    /** The freed slot is appended to the free list. */
    method Recycle(slot: nat)
      requires head == |slots| || tail < |slots|
      modifies `slots, `head, `tail, `free
      ensures slots == old(Chain(slots, head, tail, slot))
      ensures head == (if old(head == |slots|) then slot else old(head)) && tail == slot && free == old(free) + [slot]
      ensures old(Chained(slots, free, head, tail) && slot < |slots| && slot !in free) ==>
        Chained(slots, free, head, tail)
    {
      ghost var s, f, h, t := slots, free, head, tail;
      if head == |slots| {
        head := slot;
      } else {
        slots := slots[tail := slots[tail].(index := slot)];
      }
      free := free + [slot];
      tail := slot;
      if Chained(s, f, h, t) && slot < |s| && slot !in f {
        FreeChained(s, f, h, t, slot);
        Unended(s, f, h, t);
        assert f == [] ==> free == [slot];
      }
    }

    /** erase by handle: an invalid handle changes nothing. */
    method Erase(h: Handle)
      requires Valid() && InData(h)
      modifies this
      ensures old(!IsValid(h)) ==> Valid() && State() == old(State()) && values == old(values) && epoch == old(epoch)
      ensures old(IsValid(h) && Usable(h)) ==>
        && Valid() && old(KeyOf(h)) in old(View()) && Follows(old(State()), Gone({old(KeyOf(h))}), State())
        && epoch == old(epoch[h.index := epoch[h.index] + 1])
      ensures old(IsValid(h) && !Usable(h)) ==> Ruined() && |values| == old(|values|) - 1
    {
      if IsValid(h) {
        KeysAre(free, epoch, KeyOf(h));
        EraseValid(h);
      }
    }

    /** pop by handle: the value and then its erasure; None and no change for an invalid handle. */
    method Pop(h: Handle) returns (r: Option<T>)
      requires Valid() && InData(h)
      modifies this
      ensures r.None? <==> old(!IsValid(h))
      ensures r.None? ==> Valid() && State() == old(State()) && values == old(values) && epoch == old(epoch)
      ensures r.Some? && old(Usable(h)) ==>
        && Valid() && old(KeyOf(h)) in old(View()) && r.value == old(View())[old(KeyOf(h))]
        && Follows(old(State()), Gone({old(KeyOf(h))}), State())
        && epoch == old(epoch[h.index := epoch[h.index] + 1])
      ensures r.Some? && old(!Usable(h)) ==> Ruined() && |values| == old(|values|) - 1
    {
      var p := Lookup(h);
      if p.None? {
        return None;
      }
      r := Some(values[p.value]);
      EraseValid(h);
    }

    /** erase by position: the next element to look at is at the same position, for the last value fills the gap. */
    method EraseAt(i: nat) returns (next: nat, ghost k: Key)
      requires Valid() && i <= |values|
      modifies this
      ensures Valid() && next == i <= |values|
      ensures i == old(|values|) ==> State() == old(State()) && values == old(values) && epoch == old(epoch)
      ensures i < old(|values|) ==>
        && k in old(View()) && old(View())[k] == old(values[i]) && Follows(old(State()), Gone({k}), State())
        && values == Fill(old(values), i) && k.slot < old(|epoch|) && epoch == old(epoch)[k.slot := k.epoch + 1]
    {
      if i == |values| {
        return i, Key(0, 0);
      }
      var h;
      h, k := HandleAt(i);
      KeysAre(free, epoch, k);
      EraseValid(h);
      return i, k;
    }

    /** clear: every slot is freed and steps its generation, in use or not. */
    method Clear()
      requires Valid() && |slots| > 0
      modifies this
      ensures Valid() && State() == Model(map[], old(issued)) && values == []
      ensures |epoch| == old(|epoch|) && forall s :: 0 <= s < |epoch| ==> epoch[s] == old(epoch)[s] + 1
    {
      ghost var before, f, e := slots, free, epoch;
      values, reverse := [], [];
      head := 0;
      RechainAll();
      free, epoch := Upto(|slots|), Raised(epoch);
      Cleared(before, f, e, Fields(), issued, generations, maxSize);
    }

    /** The loop of clear, and the last slot made the tail that refers to itself. */
    method RechainAll()
      requires |slots| > 0 && generations >= 1
      modifies `slots, `tail
      ensures |slots| == old(|slots|) && tail == |slots| - 1
      ensures forall s :: 0 <= s < |slots| ==>
        && slots[s].index == (if s == tail then s else s + 1)
        && slots[s].generation == (old(slots)[s].generation + 1) % generations
    {
      var count := |slots|;
      for i := 0 to count
        invariant |slots| == count
        invariant forall s :: i <= s < count ==> slots[s] == old(slots)[s]
        invariant forall s :: 0 <= s < i ==>
          slots[s] == Handle(s + 1, (old(slots)[s].generation + 1) % generations)
      {
        slots := slots[i := Handle(i + 1, (slots[i].generation + 1) % generations)];
      }
      tail := count - 1;
      slots := slots[tail := slots[tail].(index := tail)];
    }

    ghost function Satisfying(m: map<Key, T>, pred: T -> bool): set<Key> {
      set k | k in m && pred(m[k])
    }

    /** Only elements that satisfy the predicate have gone, and the others have their values. */
    ghost predicate Thinned(m: map<Key, T>, rest: map<Key, T>, pred: T -> bool) {
      && rest.Keys <= m.Keys
      && (forall k :: k in rest ==> rest[k] == m[k])
      && (forall k :: k in m && k !in rest ==> pred(m[k]))
    }

    /** One element of erase_if: erased, with the position kept, or passed over. */
    method Visit(first: nat, pred: T -> bool, ghost m: map<Key, T>) returns (next: nat)
      requires Valid() && first < |values| && Thinned(m, View(), pred)
      requires forall j :: 0 <= j < first ==> !pred(values[j])
      modifies this
      ensures Valid() && issued == old(issued) && next <= |values| <= old(|values|)
      ensures Thinned(m, View(), pred) && forall j :: 0 <= j < next ==> !pred(values[j])
      ensures |values| - next < old(|values|) - first
    {
      if pred(values[first]) {
        ghost var k;
        next, k := EraseAt(first);
      } else {
        next := first + 1;
      }
    }

    /** std::erase_if: exactly the elements that satisfy the predicate go, and their number is returned. */
    method EraseIf(pred: T -> bool) returns (count: nat)
      requires Valid()
      modifies this
      ensures Valid() && Follows(old(State()), Gone(Satisfying(old(View()), pred)), State())
      ensures count == |old(View())| - |View()|
    {
      ViewSize();
      var oldSize := |values|;
      Thin(pred);
      count := oldSize - |values|;
      ViewSize();
    }

    /** The loop of erase_if. */
    method Thin(pred: T -> bool)
      requires Valid()
      modifies this
      ensures Valid() && |values| <= old(|values|)
      ensures Follows(old(State()), Gone(Satisfying(old(View()), pred)), State())
    {
      ghost var m := View();
      var first: nat := 0;
      while first != |values|
        invariant Valid() && issued == old(issued) && first <= |values| <= old(|values|)
        invariant Thinned(m, View(), pred)
        invariant forall j :: 0 <= j < first ==> !pred(values[j])
        decreases |values| - first
      {
        first := Visit(first, pred, m);
      }
      Kept(m, pred);
    }

    /** When no value is left that satisfies the predicate, the map is the filtered one. */
    lemma Kept(m: map<Key, T>, pred: T -> bool)
      requires Valid() && Thinned(m, View(), pred)
      requires forall j :: 0 <= j < |values| ==> !pred(values[j])
      ensures View() == m - Satisfying(m, pred)
    {
      forall k | k in View() ensures !pred(m[k]) {
        ValueOf(k);
      }
    }

    /** Every mapping is the value at some position. */
    lemma ValueOf(k: Key)
      requires Valid() && k in View()
      ensures exists i :: 0 <= i < |values| && values[i] == View()[k]
    {
      KeysAre(free, epoch, k);
      assert values[slots[k.slot].index] == View()[k];
    }

    /** The map has as many entries as there are values. */
    lemma ViewSize()
      requires Valid()
      ensures |View()| == |values|
    {
      FirstKeysSize(reverse, slots, epoch, |reverse|);
      forall k: Key ensures k in Keys(free, epoch) <==> k in FirstKeys(reverse, epoch, |reverse|) {
        KeysAre(free, epoch, k);
        if k in Keys(free, epoch) {
          assert reverse[slots[k.slot].index] == k.slot;
        }
      }
      assert Keys(free, epoch) == FirstKeys(reverse, epoch, |reverse|);
      assert |View()| == |View().Keys|;
    }
  }
  lemma SomeRoom(indexBits: nat)
    requires indexBits > 1
    ensures Pow2(indexBits) > 1
  {
    assert Pow2(indexBits) == 2 * Pow2(indexBits - 1);
  }

  /** A key issued and erased. */
  method ErasedHandle(indexBits: nat, generationBits: nat) returns (m: SlotMap<int>, h: Handle, ghost k: Key)
    requires indexBits > 1 && generationBits > 0
    ensures fresh(m) && m.Valid() && m.View() == map[] && k in m.issued && h == m.HandleOf(k)
    ensures m.generations == Pow2(generationBits) && m.epoch[k.slot] == k.epoch + 1
  {
    m := new SlotMap<int>(indexBits, generationBits);
    SomeRoom(indexBits);
    m.ViewSize();
    var r;
    r, k := m.Emplace(0);
    h := r.value;
    m.LiveIffCurrent(k);
    m.ValidIffLive(k);
    m.Erase(h);
  }

  /**
   Every slot map type has issued handles that pass the check on a free slot: erase, and clear until the generation has
   gone round.  The map is empty and yet lookup does not return null.
   */
  method StaleHandle(indexBits: nat, generationBits: nat)
    returns (m: SlotMap<int>, h: Handle, ghost k: Key, found: Option<nat>)
    requires indexBits > 1 && generationBits > 0
    ensures m.Valid() && m.View() == map[] && |m.values| == 0 && k in m.issued && h == m.HandleOf(k)
    ensures m.generations == Pow2(generationBits) && m.epoch[k.slot] - k.epoch == m.generations
    ensures m.IsValid(h) && !m.Usable(h) && found.Some?
  {
    m, h, k := ErasedHandle(indexBits, generationBits);
    for i := 1 to m.generations
      invariant m.Valid() && m.View() == map[] && k in m.issued && m.epoch[k.slot] == k.epoch + i
    {
      m.Clear();
    }
    DivModUnique(m.generations, m.generations, 1, 0);
    m.ValidIffWrapped(k);
    m.UsableIffKey(h);
    m.ViewSize();
    found := m.Lookup(h);
  }
}
