# A verified model of mclo's hard components

mclo is a C++ header library. This project models the parts of it whose correctness is hardest to see by reading, and
proves what they promise, with Dafny 4.11. `dafny verify dfyconfig.toml` checks everything.

| part | files |
|---|---|
| lock-free `atomic_shared_ptr` with split reference counts | `AtomicSharedPtr*.dfy` |
| Chase-Lev `work_stealing_deque` with growing rings | `WorkStealing*.dfy` |
| `dense_slot_map` | `DenseSlotMap.dfy` |
| decimal printing and parsing of `fixed_point` | `Decimal.dfy`, `FixedPoint*.dfy` |
| radix sort and counting sort | `Radix*.dfy` |
| streaming MurmurHash3 | `MurmurHash3*.dfy` |
| `intrusive_forward_list`: splice, merge, sort, remove, unique, reverse | `StableMerge.dfy`, `NodeLists.dfy`, `ForwardList*.dfy` |
| `copy_on_write` | `CopyOnWrite.dfy` |
| the ChaCha generator and seeking in it | `ChaCha*.dfy` |
| `bit_compress`, `bit_expand`, `bit_repeat`, `bit_reverse` | `CompressExpand.dfy`, `BitReverse.dfy` |
| arithmetic, bits and bytes the others share | `Arithmetic.dfy`, `Bits.dfy`, `LittleEndian.dfy`, `Wrappers.dfy` |

## How it is modelled

The two lock-free structures are transition systems: any number of threads, one step for each atomic operation, and
theorems about every run. Everything the source does by changing things step by step is a method on a class or an
array with the same loops and branches, proved against a specification: a finite map for the slot map, a sequence of
values for the copy-on-write handles, a stable sort, the nearest decimal, a one-shot hash, a position in a keystream.
Integer widths are written out where they matter: the 32-bit external counter, the 32-bit block counter, the hash, the
fixed-point representation, generations and counters of the radix sort.

The split count in more detail. A thread carries four kinds of claims on objects: strong references, the reservation
of its guard, an access count taken out of a slot but not yet added to the object, and the duty to delete. For each
live object the invariant says that the strong count is exact and that external counter + access counts of the slots
holding it + counts being folded equal, modulo 2^32, the reservations and the debt: the access counts that destructors
of slots dropped, negated. Addresses may be reused and a slot may hold the same pointer many times, so ABA is part of
every theorem. The one assumption is that an object's reservations and its debt stay below 2^32 together, which fewer
than 2^32 threads guarantee as long as nothing is owed. At every positive multiple of 2^32 the counters really fail
(`BoundIsSharp`), and the invariant admits such states (`OverflowExists`).

A second invariant says what a slot's own count is: the guards taken on the present incarnation of its pointer, less the
reservations given back to it by guards of earlier ones, the strays (`StepLaw`).

## What the proofs found

* The destructor of `atomic_shared_ptr` drops its pointer without folding the slot's access count, although the comment
  on the folding function says it is used when a slot is destroyed, and the one in the destructor says the count must
  be zero by then. It need not be: it is the number of strays, negated (`CountAtDestruction`), and that number is what
  the object owes from then on (`DestroyExact`). An object that nobody owns, reserves or deletes is leaked exactly if it
  owes something (`LeakedIffIndebted`), and what is leaked is never freed or reached again (`NeverFreed`,
  `LeakedForever`). A client is safe if it never stores a pointer back to a slot while an unfinished operation on that
  slot still reserves it (`CarefulRuns`, `NoLeak`), and with fewer than 2^32 threads it needs no other assumption
  (`DisciplinedClient`). `LeakAfterAba` is a run of two threads that breaks the rule and leaks.
* Digits that `fixed_point_from_chars` drops can change the stored value, contrary to its comment, for it keeps only
  digits10 digits of the fraction. They never do exactly for the types with Fraction < digits10 (`DroppedPlaces`), and
  exactly those read every text whose whole part fits 64 bits as the nearest unit (`NearestIffResolved`). Of the aliases
  the two decimal ones do and the three binary ones do not (`AliasNearest`): `fixed_b16` reads .001953125, half a unit,
  as 0 and not as 1 (`HalfOfB16`).
* A whole part that does not fit 64 bits is silently read as zero if places follow, and is a failure only if none do.
  The result is then what reading the whole part would have given exactly if that is a multiple of 2^bits units
  (`WideWhole`). A `std::uint8_t` with one fractional bit stores 18446744073709551617.5 as 1, where 3 is left modulo 2^8
  (`WideWholeIgnored`).
* Printing and parsing does not restore every value of every type. `RoundTrip` gives the exact condition. It holds for
  all decimal types and all the aliases, whose own values need no more digits than are kept to be told apart; it fails
  for `std::uint8_t` with 7 fractional bits and stored value 1 (`LossyRoundTrip`).
* A requested precision is honoured exactly by the types that have fractional digits, or when it is zero
  (`PrecisionKept`); the others print no places whatever is asked for (`PrecisionIgnored`), contrary to the comment on
  `fixed_point_to_chars`.
* `chacha::get_counter` is documented as the current block. It is the block of the next result only at a block
  boundary, and one more otherwise (`CounterIsCurrent`).
* `dense_slot_map::is_valid` cannot tell a handle from one whose generation has gone round: the handle of an issued key
  passes exactly when its slot was invalidated a multiple of 2^g times since, for g generation bits (`ValidIffWrapped`).
  If the slot is in use by then the handle stands for another key, and if it is free for none (`StrayIffWrapped`). In
  the second case, to which erasing and clearing leads for every handle type (`StaleHandle`), `lookup` does not return
  null: it takes the slot's link in the free list for a position in the data, which is that of another key's value or
  past the data (`Lookup`). `erase` and `pop` do the same. Past the data they leave its bounds; otherwise they drop
  another key's value and leave a free list that runs into a cycle (`Erase`, `Pop`). A handle is free of this exactly if
  passing the check means that its key is in the map (`UsableIffKey`); fewer than 2^g invalidations guarantee it
  (`ValidIffLive`).
* Sorting by radix key puts NaNs first or last, according to their sign (`NotANumberOutside`).

## Model

| member | source | states |
|---|---|---|
| `AtomicSharedPtrTheorems.AllRuns` | include/mclo/threading/atomic_shared_ptr_ref_counter.hpp:126-163 | all three invariants, conservation modulo 2^32, the slot law and linearizability, hold at the end of every run of any number of threads, slots and objects, ABA and destruction of slots included |
| `AtomicSharedPtrSteps.StepKeeps` | include/mclo/threading/atomic_shared_ptr.hpp:59-97 | every step of every operation keeps the conservation invariant |
| `AtomicSharedPtrSteps.AcquireKeeps` | include/mclo/threading/atomic_shared_ptr.hpp:59-73 | a turn of the reservation loop, on a null slot too, keeps it |
| `AtomicSharedPtrSteps.ReleaseKeeps` | include/mclo/threading/atomic_shared_ptr.hpp:75-97 | giving a reservation back to the slot, even to a later incarnation of the same pointer, keeps it |
| `AtomicSharedPtrSteps.ExchangeKeeps` | include/mclo/threading/atomic_shared_ptr.hpp:182-228 | the exchange of store and exchange moves the slot's access count into a fold under way |
| `AtomicSharedPtrSteps.SwapKeeps` | include/mclo/threading/atomic_shared_ptr.hpp:250-271 | the compare-exchange on the slot keeps it, whether it succeeds, fails spuriously or finds another pointer |
| `AtomicSharedPtrSteps.DecKeeps` | include/mclo/threading/atomic_shared_ptr_ref_counter.hpp:107-124 | dropping a strong reference keeps it, including the decision to delete |
| `AtomicSharedPtrSteps.AddExternalKeeps` | include/mclo/threading/atomic_shared_ptr_ref_counter.hpp:126-145 | folding a signed access count in with 32-bit wrap-around keeps it |
| `AtomicSharedPtrSteps.RemoveExternalKeeps` | include/mclo/threading/atomic_shared_ptr_ref_counter.hpp:147-163 | removing a reservation from the object keeps it, including the decision to delete |
| `AtomicSharedPtrTheorems.NoUseAfterFree` | include/mclo/threading/atomic_shared_ptr.hpp:75-97 | no thread's next atomic operation touches an object that was deleted |
| `AtomicSharedPtrTheorems.HeldIsAlive` | include/mclo/memory/intrusive_ptr.hpp:57-82 | the object of a strong reference is alive and counts it |
| `AtomicSharedPtrTheorems.DeleterIsAlone` | include/mclo/threading/atomic_shared_ptr_ref_counter.hpp:118-123 | when a thread has decided to delete an object nobody owns, reserves or folds into it, no slot holds it and nobody else deletes it |
| `AtomicSharedPtrTheorems.FreedByDeleter` | include/mclo/threading/atomic_shared_ptr_ref_counter.hpp:119-123 | an object disappears only by the step of that thread, hence at most once |
| `AtomicSharedPtrSlots.StepLaw` | include/mclo/threading/atomic_shared_ptr.hpp:59-97 | every step keeps the slot law: the access count is the guards taken on the present incarnation less the reservations given back to it by guards of earlier ones |
| `AtomicSharedPtrSlots.CountAtDestruction` | include/mclo/threading/atomic_shared_ptr.hpp:146-154 | when a slot may be destroyed its access count is the number of strays, negated |
| `AtomicSharedPtrSlots.StepStrays` | include/mclo/threading/atomic_shared_ptr.hpp:75-97 | no step makes a stray reservation possible but one that stores a pointer back to a slot while an unfinished operation on that slot reserves it |
| `AtomicSharedPtrSlots.StepDebts` | include/mclo/threading/atomic_shared_ptr.hpp:146-154 | without strays the destruction of a slot leaves no debt |
| `AtomicSharedPtrSlots.AloneIsSafe` | include/mclo/threading/atomic_shared_ptr.hpp:182-228 | a store, exchange or compare-exchange does not do that when no other thread is in an operation on the slot |
| `AtomicSharedPtrTheorems.CarefulRuns` | include/mclo/threading/atomic_shared_ptr.hpp:146-154 | after any run without such a step no object owes anything, whatever slots were destroyed |
| `AtomicSharedPtrTheorems.LeakedIffIndebted` | include/mclo/threading/atomic_shared_ptr_ref_counter.hpp:137-142 | an object that nobody owns, reserves or deletes, and no slot holds, is still there if and only if it owes something |
| `AtomicSharedPtrTheorems.NoLeak` | include/mclo/threading/atomic_shared_ptr_ref_counter.hpp:137-142 | after any run without such a step an object that nobody owns, reserves or deletes, and no slot holds, is gone |
| `AtomicSharedPtrTheorems.CountersUnwind` | include/mclo/threading/atomic_shared_ptr_ref_counter.hpp:137-142 | with ordinary owners only, the external counter is the debt and the count is the number of owners |
| `AtomicSharedPtrTheorems.BoundIsSharp` | include/mclo/threading/atomic_shared_ptr_ref_counter.hpp:107-124 | when reservations and debt come to any positive multiple of 2^32, dropping the last strong reference deletes an object that is still reserved or indebted |
| `AtomicSharedPtrTheorems.OverflowExists` | include/mclo/threading/atomic_shared_ptr_ref_counter.hpp:107-124 | for each such multiple there is a state with that many reserving threads that the invariant admits |
| `AtomicSharedPtrClients.FewThreads` | include/mclo/threading/atomic_shared_ptr.hpp:38-56 | fewer than 2^32 threads meet the assumption while nothing is owed |
| `AtomicSharedPtrClients.DisciplinedClient` | include/mclo/threading/atomic_shared_ptr.hpp:146-154 | every run of steps that can be taken, with fewer than 2^32 threads and no reserved pointer stored back, meets the assumption, keeps all three invariants and leaks nothing |
| `AtomicSharedPtrTheorems.DestroyExact` | include/mclo/threading/atomic_shared_ptr.hpp:146-154 | the destructor adds the strays of the slot to what its object owes, modulo 2^32 |
| `AtomicSharedPtrTheorems.DebtStays` | include/mclo/threading/atomic_shared_ptr.hpp:146-154 | no step frees an object that owes something, and only the destruction of another slot that holds it with a count other than zero changes what it owes |
| `AtomicSharedPtrTheorems.NeverFreed` | include/mclo/threading/atomic_shared_ptr.hpp:146-154 | in every run that destroys slots holding it with a count of zero only, it is still there at the end and owes the same |
| `AtomicSharedPtrTheorems.LeakedForever` | include/mclo/threading/atomic_shared_ptr.hpp:146-154 | what nobody can reach and is still there stays so in every run |
| `AtomicSharedPtrLeak.LeakAfterAba` | include/mclo/threading/atomic_shared_ptr.hpp:146-154 | a run of two threads that end idle, in which a slot in nobody's use is destroyed with count -1; however it goes on, the object stays allocated and out of reach |
| `AtomicSharedPtrLinear.StepLin` | include/mclo/threading/atomic_shared_ptr.hpp:166-296 | every step keeps the history a legal one that ends in what the slots hold |
| `AtomicSharedPtrTheorems.Linearizable` | include/mclo/threading/atomic_shared_ptr.hpp:166-296 | every completed operation has exactly one event between its call and its return, in a legal history of a single register, with its own result; real-time order is kept |
| `AtomicSharedPtrTheorems.StrongCompareExchange` | include/mclo/threading/atomic_shared_ptr.hpp:281-296 | true only if the slot held expected, which desired then replaced; false only with the different pointer found, leaving the slot alone |
| `AtomicSharedPtrTheorems.ResultIsOwned` | include/mclo/threading/atomic_shared_ptr.hpp:115-118 | before the return the thread has the strong reference that comes with the pointer returned or written to expected |
| `AtomicSharedPtrOwnership.ExactOwnership` | include/mclo/threading/atomic_shared_ptr.hpp:166-296 | from a call to its return the caller's references change by exactly those it handed in, the old expected of a failed compare-exchange among them, those that come with the result, and those other threads gave it meanwhile |
| `AtomicSharedPtrSolo.SoloEnds` | include/mclo/threading/atomic_shared_ptr.hpp:59-97 | from any state in which nothing is owed, with fewer than 2^32 threads, an operation that is left alone and meets no spurious failure ends |
| `AtomicSharedPtrSolo.LoneCompareExchange` | include/mclo/threading/atomic_shared_ptr.hpp:246-296 | left alone on a slot that holds expected, either compare-exchange ends in success with desired in the slot |
| `WorkStealingRing.BitCeilIsLeast` | include/mclo/threading/work_stealing_deque.hpp:218-226 | the capacity is the least power of two that is large enough |
| `WorkStealingRing.SameCell` | include/mclo/threading/work_stealing_deque.hpp:175-183 | indices less than a capacity apart never share a cell under the mask |
| `WorkStealingRing.ResizedKeeps` | include/mclo/threading/work_stealing_deque.hpp:190-198 | growing keeps what every live index holds |
| `WorkStealingRing.RingStorage.Store` | include/mclo/threading/work_stealing_deque.hpp:175-178 | the masked cell is written and the others are left |
| `WorkStealingRing.RingStorage.Load` | include/mclo/threading/work_stealing_deque.hpp:180-183 | the masked cell is read |
| `WorkStealingRing.RingStorage.Resize` | include/mclo/threading/work_stealing_deque.hpp:190-198 | the copying loop makes the ring of twice the capacity and leaves the old one as it is |
| `WorkStealingProofs.StepKeeps` | include/mclo/threading/work_stealing_deque.hpp:70-160 | every step of the owner and of any thief keeps the invariant |
| `WorkStealingProofs.PushStoreKeeps` | include/mclo/threading/work_stealing_deque.hpp:83-85 | writing the pushed value cannot disturb a thief that is reading |
| `WorkStealingProofs.PopTopKeeps` | include/mclo/threading/work_stealing_deque.hpp:93-127 | a pop takes effect when it sees top below its index: no thief can reach the item from then on |
| `WorkStealingProofs.PopRaceKeeps` | include/mclo/threading/work_stealing_deque.hpp:110-118 | the last item goes to whoever moves top first |
| `WorkStealingProofs.StealWins` | include/mclo/threading/work_stealing_deque.hpp:145-157 | a thief whose compare-exchange succeeds returns the oldest item, through whatever replaced ring it read it |
| `WorkStealingProofs.Conservation` | include/mclo/threading/work_stealing_deque.hpp:70-160 | in a legal history pushed = popped + stolen + held, as multisets |
| `WorkStealingProofs.ExactlyOnce` | include/mclo/threading/work_stealing_deque.hpp:70-160 | in every run the values returned are those of a legal sequential history, thieves taking the oldest and the owner the newest, and pushed = returned + held |
| `WorkStealingCalls.OwnerCall` | include/mclo/threading/work_stealing_deque.hpp:70-127 | between the start of a push or pop and its return, whatever thieves do, the owner has exactly one event: that push, or a pop with the value returned |
| `WorkStealingCalls.ThiefCall` | include/mclo/threading/work_stealing_deque.hpp:135-160 | between the start of a steal and its return the thief has one event if it returns an item, with that item, and none if it returns nothing |
| `WorkStealingProofs.NeverStuck` | include/mclo/threading/work_stealing_deque.hpp:135-160 | no step uses a negative index or a ring that does not exist |
| `WorkStealingProgress.OwnerWaitFree` | include/mclo/threading/work_stealing_deque.hpp:70-127 | a push or pop ends within five steps of the owner, whatever thieves do |
| `WorkStealingProgress.ThiefWaitFree` | include/mclo/threading/work_stealing_deque.hpp:135-160 | a steal ends within four steps of its thread, whatever the others do |
| `WorkStealingProgress.LoneSteal` | include/mclo/threading/work_stealing_deque.hpp:135-160 | with the owner idle and no other thread stepping a steal returns the oldest item, or nothing if there is none |
| `WorkStealingProgress.NothingOnlyIf` | include/mclo/threading/work_stealing_deque.hpp:135-160 | a steal that returns nothing found, at some moment of the call, at most the item the owner was popping, or somebody else took an item during the call |
| `SlotLinks.PushFree` | include/mclo/container/dense_slot_map.hpp:560-577 | a fresh slot chained in front of the free list keeps the chain |
| `SlotLinks.TakeFree` | include/mclo/container/dense_slot_map.hpp:931-946 | taking the head of the free list keeps indirection and reverse map inverse to each other and the chain complete |
| `SlotLinks.FreeLinked` | include/mclo/container/dense_slot_map.hpp:957-983 | freeing a slot, with the last value moved into the gap, keeps them inverse |
| `SlotLinks.FreeChained` | include/mclo/container/dense_slot_map.hpp:985-996 | the freed slot becomes the new tail of the chain |
| `DenseSlotMap.SlotMap.constructor` | include/mclo/container/dense_slot_map.hpp:1011-1030 | a new slot map is the empty map |
| `DenseSlotMap.SlotMap.Lookup` | include/mclo/container/dense_slot_map.hpp:705-738 | the position of the value of the handle's key, or nothing for an invalid handle; for one that passes the check on a free slot the slot's link, which is no position of that key: the next free slot, unless it is the last |
| `DenseSlotMap.SlotMap.HandleAt` | include/mclo/container/dense_slot_map.hpp:1002-1007 | the handle of the value at a position |
| `DenseSlotMap.SlotMap.LiveIffCurrent` | include/mclo/container/dense_slot_map.hpp:695-700 | an issued key is in the map as long as its slot has not been invalidated since |
| `DenseSlotMap.SlotMap.ValidIffWrapped` | include/mclo/container/dense_slot_map.hpp:695-700 | an issued handle passes the check if and only if the slot's generation has gone round a whole number of times since |
| `DenseSlotMap.SlotMap.ValidIffLive` | include/mclo/container/dense_slot_map.hpp:695-700 | until then it passes if and only if its key is in the map |
| `DenseSlotMap.SlotMap.StrayIffWrapped` | include/mclo/container/dense_slot_map.hpp:695-700 | an issued handle passes on a free slot, or stands for another key, if and only if the generation has gone round at least once and the slot is free, or in use |
| `DenseSlotMap.SlotMap.UsableIffKey` | include/mclo/container/dense_slot_map.hpp:695-700 | any handle, issued or not, names a slot in use if it passes, if and only if passing means that its key is in the map |
| `DenseSlotMap.StaleHandle` | include/mclo/container/dense_slot_map.hpp:660-738 | for every number of index and generation bits, a run after which the map is empty, an issued handle passes the check and lookup does not return null |
| `DenseSlotMap.SlotMap.NullIsInvalid` | include/mclo/container/dense_slot_map.hpp:695-700 | the null handle is never valid, as no issued index reaches the sentinel |
| `DenseSlotMap.SlotMap.ReserveSlots` | include/mclo/container/dense_slot_map.hpp:545-585 | the slots are added and nothing in the map changes; too many are refused |
| `DenseSlotMap.SlotMap.AddSlot` | include/mclo/container/dense_slot_map.hpp:565-577 | one entry made the head of the free list |
| `DenseSlotMap.SlotMap.Emplace` | include/mclo/container/dense_slot_map.hpp:900-952 | the map with a key never issued before and its value, unless the container is full |
| `DenseSlotMap.SlotMap.Occupy` | include/mclo/container/dense_slot_map.hpp:931-951 | the head of the free list becomes the slot of the value |
| `DenseSlotMap.SlotMap.EraseValid` | include/mclo/container/dense_slot_map.hpp:957-997 | the map without the handle's key; on a free slot one value less and links that no free list makes sense of |
| `SlotLinks.ErasedFree` | include/mclo/container/dense_slot_map.hpp:957-997 | after erasing a free slot no chain from head to tail visits as many slots as hold no value |
| `DenseSlotMap.SlotMap.MoveLastInto` | include/mclo/container/dense_slot_map.hpp:961-983 | the last value and its reverse entry take the place of the erased one |
| `DenseSlotMap.SlotMap.Recycle` | include/mclo/container/dense_slot_map.hpp:985-996 | the slot appended to the free list, which is again a chain from head to tail |
| `DenseSlotMap.SlotMap.Erase` | include/mclo/container/dense_slot_map.hpp:598-604 | exactly the handle's key goes, and nothing for an invalid handle; one that passes on a free slot ruins the free list |
| `DenseSlotMap.SlotMap.EraseAt` | include/mclo/container/dense_slot_map.hpp:609-618 | exactly the key of the value at the position goes, and the last value is at that position afterwards |
| `DenseSlotMap.SlotMap.Pop` | include/mclo/container/dense_slot_map.hpp:624-636 | the value and its erasure, or nothing; the same ruin for a handle that passes on a free slot |
| `DenseSlotMap.SlotMap.Clear` | include/mclo/container/dense_slot_map.hpp:660-679 | the empty map, with every slot invalidated once |
| `DenseSlotMap.SlotMap.RechainAll` | include/mclo/container/dense_slot_map.hpp:664-678 | the slots chained in order, the last referring to itself, each generation stepped |
| `DenseSlotMap.SlotMap.EraseIf` | include/mclo/container/dense_slot_map.hpp:1050-1066 | exactly the entries that satisfy the predicate go, every other key keeps its value, and their number is returned |
| `DenseSlotMap.SlotMap.Visit` | include/mclo/container/dense_slot_map.hpp:1056-1063 | one turn of that loop brings it nearer to its end and skips nothing |
| `DenseSlotMap.KeyIsStable` | include/mclo/container/dense_slot_map.hpp:545-737 | over any run of changes an issued key keeps its own value until it is erased and never comes back |
| `FixedPoint.MagnitudeIsAbs` | include/mclo/numeric/fixed_point_io.hpp:41-46 | the magnitude is the absolute value, the most negative value included |
| `FixedPoint.Parts` | include/mclo/numeric/fixed_point.hpp:148-160 | integer and fractional part truncate toward zero and make up the value |
| `FixedPoint.ScaleDivides` | include/mclo/numeric/fixed_point_io.hpp:69-71 | the fractional part ends within Fraction decimal digits for either base |
| `FixedPoint.DecimalFits` | include/mclo/numeric/fixed_point.hpp:84-95 | a decimal scale that fits the representation has at most digits10 digits |
| `FixedPointPrint.NearestIsNearest` | include/mclo/numeric/fixed_point_io.hpp:90-92 | the number of units shown is the nearest one with halves away from zero, and the only one |
| `FixedPointPrint.ShownReads` | include/mclo/numeric/fixed_point_io.hpp:139-147 | the digits shown read as that number |
| `FixedPointPrint.LeastPlacesIsLeast` | include/mclo/numeric/fixed_point_io.hpp:122-129 | with fewer places than the exact form has something would be left over |
| `FixedPointPrint.CarryIncrement` | include/mclo/numeric/fixed_point_io.hpp:52-65 | one is added to the digit string, and the carry leaves it exactly when it was all nines |
| `FixedPointPrint.FillFraction` | include/mclo/numeric/fixed_point_io.hpp:73-86 | long division writes exactly the digits of the fractional part |
| `FixedPointPrint.WideIsEnough` | include/mclo/numeric/fixed_point_io.hpp:79-85 | remainder * 10 stays in the wider type |
| `FixedPointPrint.Trim` | include/mclo/numeric/fixed_point_io.hpp:123-129 | precision below zero: the fewest places that show the value exactly |
| `FixedPointPrint.Round` | include/mclo/numeric/fixed_point_io.hpp:130-137 | a precision below Fraction: the digits kept, with a carry into the whole part, show the nearest decimal |
| `FixedPointPrint.RoundFraction` | include/mclo/numeric/fixed_point_io.hpp:121-141 | which digits and how much padding follow, and what the whole part has become |
| `FixedPointPrint.WriteMixed` | include/mclo/numeric/fixed_point_io.hpp:116-148 | the text after the sign for a type with a fraction |
| `FixedPointPrint.WholeLength` | include/mclo/numeric/fixed_point_io.hpp:30-34 | the whole part, also after rounding up, has at most digits10 + 1 digits |
| `FixedPointPrint.PrecisionKept` | include/mclo/numeric/fixed_point_io.hpp:109-148 | a precision of zero or more is what is printed if and only if the type has fractional digits or the precision is zero |
| `FixedPointPrint.PrecisionIgnored` | include/mclo/numeric/fixed_point_io.hpp:109-148 | two places asked of a type without fraction: none are printed |
| `FixedPointPrint.PrintedIsText` | include/mclo/numeric/fixed_point_io.hpp:95-150 | read by its characters: a minus sign exactly before a negative value, then digits, and after a point as many places as the precision says; together the decimal nearest to the value, or at a negative precision the value itself without a trailing zero |
| `FixedPointPrint.ToChars` | include/mclo/numeric/fixed_point_io.hpp:95-150 | the characters in the buffer are such a text, and for precisions up to 40 they fit it |
| `FixedPointParse.ReadSign` | include/mclo/numeric/fixed_point_io.hpp:173-178 | an optional sign is read |
| `FixedPointParse.SkipDigits` | include/mclo/numeric/fixed_point_io.hpp:189-193 | all digits from a place on are passed over, and nothing else |
| `FixedPointParse.ReadPlaces` | include/mclo/numeric/fixed_point_io.hpp:185-205 | the point and the digits after it are read, if there is a point |
| `FixedPointParse.FromChars` | include/mclo/numeric/fixed_point_io.hpp:158-218 | the value the text denotes, and a failure exactly if it denotes none; what is denoted is what the rows of `FixedPointNearest` say |
| `FixedPointNearest.DroppedPlaces` | include/mclo/numeric/fixed_point_io.hpp:154-156 | the places beyond those kept never change the scaled fraction, for all texts, if and only if Fraction < digits10 |
| `FixedPointNearest.WideWhole` | include/mclo/numeric/fixed_point_io.hpp:180-197 | a whole part counts as written if and only if it fits 64 bits or is a multiple of 2^bits units; one that does not fit is accepted if and only if places follow |
| `FixedPointNearest.WideWholeIgnored` | include/mclo/numeric/fixed_point_io.hpp:180-197 | a text with a whole part that does not fit, accepted with another value than its own modulo 2^bits |
| `FixedPointNearest.MeaningIsNearest` | include/mclo/numeric/fixed_point_io.hpp:154-156 | in a type with Fraction < digits10 a text is read as its number rounded half away from zero, modulo 2^bits, if and only if the whole part counts as written |
| `FixedPointNearest.MeaningIsOfCut` | include/mclo/numeric/fixed_point_io.hpp:154-218 | in every type a text is read as its number cut off after digits10 places and rounded half away from zero, modulo 2^bits, if and only if the whole part counts as written; one with no more places is not cut |
| `FixedPointNearest.NearestIffResolved` | include/mclo/numeric/fixed_point_io.hpp:154-156 | a type reads every text whose whole part fits as the nearest unit if and only if Fraction < digits10 |
| `FixedPointNearest.NearestText` | include/mclo/numeric/fixed_point_io.hpp:158-218 | in such a type such a text denotes that value and no other |
| `FixedPointNearest.AliasNearest` | include/mclo/numeric/fixed_point.hpp:375-385 | of the aliases the decimal ones and no others do |
| `FixedPointNearest.HalfOfB16` | include/mclo/numeric/fixed_point.hpp:375-375 | half a unit of fixed_b16 is read as 0 while the nearest unit, halves up, is 1 |
| `FixedPointRoundTrip.ScaledIsNearest` | include/mclo/numeric/fixed_point_io.hpp:198-203 | the digits kept are scaled to the nearest stored unit, halves up |
| `FixedPointRoundTrip.RoundTrip` | include/mclo/numeric/fixed_point_io.hpp:95-218 | parsing the exact text gives the stored integer back if and only if what lies beyond the digits kept is at most half a unit, for every value of every type |
| `FixedPointRoundTrip.RoundTripAlways` | include/mclo/numeric/fixed_point_io.hpp:95-218 | it does for every value when Fraction <= digits10 or 2 * scale <= 10^digits10 |
| `FixedPointRoundTrip.DecimalRoundTrip` | include/mclo/numeric/fixed_point_io.hpp:95-218 | it does for every decimal type |
| `FixedPointRoundTrip.AliasRoundTrip` | include/mclo/numeric/fixed_point.hpp:375-385 | it does for all the aliases |
| `FixedPointRoundTrip.LossyRoundTrip` | include/mclo/numeric/fixed_point_io.hpp:154-156 | a type and a value for which it does not |
| `FixedPointRoundTrip.WriteAndRead` | include/mclo/numeric/fixed_point_io.hpp:95-218 | the printer followed by the parser, with the same condition |
| `RadixKeys.SignedRadix` | include/mclo/algorithm/radix_sort.hpp:34-40 | flipping the sign bit adds half the range |
| `RadixKeys.FloatingRadix` | include/mclo/algorithm/radix_sort.hpp:42-54 | the mask reverses the order of negative bit patterns and puts them below the others |
| `RadixKeys.RadixOrder` | include/mclo/algorithm/radix_sort.hpp:28-54 | radix keys are ordered as the keys are, floats by value with -0 before +0, and are equal only for equal keys |
| `RadixKeys.NotANumberOutside` | include/mclo/algorithm/radix_sort.hpp:42-54 | a NaN is before everything else if it has the sign bit, and after it otherwise |
| `RadixKeys.RadixFits` | include/mclo/algorithm/radix_sort.hpp:128-129 | a radix key fits the bytes that are sorted |
| `RadixPasses.PassSorts` | include/mclo/algorithm/radix_sort.hpp:157-183 | a pass by byte i sorts by i + 1 bytes what was sorted by i |
| `RadixPasses.PassKeepsClass` | include/mclo/algorithm/radix_sort.hpp:157-183 | a pass keeps the order of elements with equal keys |
| `RadixPasses.PassesPermute` | include/mclo/algorithm/radix_sort.hpp:157-183 | the passes permute the elements |
| `RadixPasses.PassesKeepStart` | include/mclo/algorithm/radix_sort.hpp:133-155 | histograms made before the passes are right for every pass |
| `RadixPasses.PlaceNext` | include/mclo/algorithm/radix_sort.hpp:167-172 | scattering an element disturbs nothing that was placed |
| `RadixSort.PassesAreStableSort` | include/mclo/algorithm/radix_sort.hpp:264-268 | as many passes as the key has bytes sort stably by the original order |
| `RadixSort.Histograms` | include/mclo/algorithm/radix_sort.hpp:133-143 | every byte's histogram in one walk, no counter passing the maximum of its type |
| `RadixSort.PrefixSums` | include/mclo/algorithm/radix_sort.hpp:145-155 | histograms become bucket starts, no total passing the maximum |
| `RadixSort.Scatter` | include/mclo/algorithm/radix_sort.hpp:160-183 | one scatter makes one pass |
| `RadixSort.RadixSortImpl` | include/mclo/algorithm/radix_sort.hpp:123-193 | all passes, ending in the buffer that the number of bytes says |
| `RadixSort.CountFalse` | include/mclo/algorithm/radix_sort.hpp:66-73 | the number of false keys, within the counter |
| `RadixSort.Partition` | include/mclo/algorithm/radix_sort.hpp:75-86 | the false keys and then the true ones, each in their old order |
| `RadixSort.CountingSortBool` | include/mclo/algorithm/radix_sort.hpp:64-87 | boolean keys: two buckets are a pass |
| `RadixSort.CountingSortImpl` | include/mclo/algorithm/radix_sort.hpp:94-116 | keys of one byte: one pass |
| `RadixSort.CountLimit` | include/mclo/algorithm/radix_sort.hpp:245-260 | the counter type chosen for a size can count it |
| `RadixSort.CountingSort` | include/mclo/algorithm/radix_sort.hpp:216-262 | the output is the stable sort of the source |
| `RadixSort.RadixSort` | include/mclo/algorithm/radix_sort.hpp:289-319 | the buffer the result names holds the stable permutation of the source in key order |
| `MurmurHash3.ShiftInIsOr` | source/hash/murmur_hash_3.cpp:168-168 | shifting a byte into the carry, as arithmetic |
| `MurmurHash3.StoredIsMasked` | source/hash/murmur_hash_3.cpp:274-274 | storing the count in the low byte, as arithmetic |
| `MurmurHash3.CountIsMasked` | source/hash/murmur_hash_3.cpp:196-196 | reading the count, as arithmetic |
| `MurmurHash3.JoinIsOr` | source/hash/murmur_hash_3.cpp:237-262 | the word joined from carry and input, as arithmetic |
| `MurmurHash3.ShiftedIn` | source/hash/murmur_hash_3.cpp:168-170 | a byte shifted in joins the tail that the carry holds |
| `MurmurHash3.StoredKeeps` | source/hash/murmur_hash_3.cpp:272-274 | a stored carry holds the tail and its length |
| `MurmurHash3.Joined` | source/hash/murmur_hash_3.cpp:228-263 | a word read behind the tail gives the next block and the new tail |
| `MurmurHash3Stream.CompleteBlock` | source/hash/murmur_hash_3.cpp:171-175 | the byte that fills the carry makes the next block |
| `MurmurHash3Stream.DoBytes` | source/hash/murmur_hash_3.cpp:162-178 | after any number of bytes the hash is that of the whole blocks and the carry holds the tail |
| `MurmurHash3Stream.ProcessUnaligned` | source/hash/murmur_hash_3.cpp:198-215 | the same after a buffer, reading words anywhere |
| `MurmurHash3Stream.ProcessAligned` | source/hash/murmur_hash_3.cpp:216-264 | the same reading words at aligned addresses only, whatever the buffer's address |
| `MurmurHash3Stream.Hasher.Write` | source/hash/murmur_hash_3.cpp:304-310 | the hasher stands for what it saw before followed by the data |
| `MurmurHash3Stream.Hasher.Finish` | source/hash/murmur_hash_3.cpp:280-315 | the one-shot hash of everything written |
| `MurmurHash3Stream.HashChunks` | source/hash/murmur_hash_3.cpp:184-315 | any way of cutting the input, any addresses, either processor: the one-shot hash of the whole |
| `MurmurHash3Example.Nothing` | source/hash/murmur_hash_3.cpp:280-302 | the one-shot hash of no bytes with seed 0 is 0 |
| `MurmurHash3Example.Seeded` | source/hash/murmur_hash_3.cpp:280-302 | with seed 1 it is 0x514e28b7, which takes both multipliers and all three shifts of the finalization |
| `MurmurHash3Example.OneBlock` | source/hash/murmur_hash_3.cpp:142-302 | the hash of "test" is 0xba6bd213: one block |
| `MurmurHash3Example.BlockAndByte` | source/hash/murmur_hash_3.cpp:142-302 | the hash of "hello" is 0x248bfa47: a block and a tail of one byte |
| `MurmurHash3Example.ThreeBytes` | source/hash/murmur_hash_3.cpp:280-302 | the hash of "aaa" with seed 0x9747b28c is 0x283e0130: a tail of three bytes |
| `MurmurHash3Example.ThreeBlocks` | source/hash/murmur_hash_3.cpp:142-302 | the hash of "Hello, world!" with that seed is 0x24884cba: three blocks and a tail |
| `StableMerge.MergeAssociative` | include/mclo/container/intrusive_forward_list.hpp:437-469 | merging runs in any grouping gives the same |
| `StableMerge.MergeSorted` | include/mclo/container/intrusive_forward_list.hpp:437-469 | merging sorted sequences is sorted |
| `StableMerge.MergeLevel` | include/mclo/container/intrusive_forward_list.hpp:449-452 | on ties the receiver's elements stay in front |
| `StableMerge.SortAppend` | include/mclo/container/intrusive_forward_list.hpp:400-401 | sorting two runs and merging them is sorting both |
| `StableMerge.SortIsStable` | include/mclo/container/intrusive_forward_list.hpp:391-434 | the specification is a sorted permutation that keeps elements that compare level in order |
| `NodeLists.SpliceMoves` | include/mclo/container/intrusive_forward_list.hpp:281-291 | on the links, the nodes leave one list and follow a position in the other, and nothing is lost or duplicated |
| `ForwardList.SpliceAfter` | include/mclo/container/intrusive_forward_list.hpp:256-291 | the links after splicing a range, and no change for an empty one |
| `ForwardList.MergeInto` | include/mclo/container/intrusive_forward_list.hpp:437-469 | the receiver is the merge, the other list is empty, no other link changes |
| `ForwardList.MergeStep` | include/mclo/container/intrusive_forward_list.hpp:445-468 | one turn takes at least one node and keeps what the merge will be |
| `ForwardListSort.MergeLists` | include/mclo/container/intrusive_forward_list.hpp:416-416 | merging one of many lists into another leaves the rest alone |
| `ForwardListSort.SwapLists` | include/mclo/container/intrusive_forward_list.hpp:417-420 | two of many lists exchanged |
| `ForwardListSort.MoveFirst` | include/mclo/container/intrusive_forward_list.hpp:232-249 | the first node of one list moves to another |
| `ForwardListSort.BinSize` | include/mclo/container/intrusive_forward_list.hpp:400-401 | a bin holds a consecutive run of the input |
| `ForwardListSort.Cascaded` | include/mclo/container/intrusive_forward_list.hpp:412-418 | merging the carry into an occupied bin doubles the run |
| `ForwardListSort.Stored` | include/mclo/container/intrusive_forward_list.hpp:420-424 | the carry put into a free bin keeps occupied bin i at exactly 2^i elements, and a free bin is always there |
| `ForwardListSort.Cascade` | include/mclo/container/intrusive_forward_list.hpp:412-418 | the cascade stops at a free bin |
| `ForwardListSort.Insert` | include/mclo/container/intrusive_forward_list.hpp:407-425 | one more element is counted into the bins |
| `ForwardListSort.Collect` | include/mclo/container/intrusive_forward_list.hpp:427-431 | merging the bins upwards gives the sort of the whole input |
| `ForwardListSort.Sort` | include/mclo/container/intrusive_forward_list.hpp:391-434 | the list is the stable sort of its nodes |
| `ForwardListSort.SortResult` | include/mclo/container/intrusive_forward_list.hpp:386-434 | what that means: sorted, the same nodes, level nodes in their old order |
| `ForwardListRemove.Unlinked` | include/mclo/container/intrusive_forward_list.hpp:317-317 | a node taken out is linked around and links to nothing |
| `ForwardListRemove.WithoutCounts` | include/mclo/container/intrusive_forward_list.hpp:307-327 | exactly the nodes that do not satisfy the predicate are left |
| `ForwardListRemove.WithoutKeeps` | include/mclo/container/intrusive_forward_list.hpp:307-327 | they are in their old order: what is left are the positions of the list that do not satisfy it |
| `ForwardListRemove.RemoveIf` | include/mclo/container/intrusive_forward_list.hpp:307-327 | the list is what is left in order, removed nodes link to nothing, their number is returned and no other link changes |
| `ForwardListRemove.NeighboursDiffer` | include/mclo/container/intrusive_forward_list.hpp:359-384 | no node that is left is the same as the one before it |
| `ForwardListRemove.UniqueKeeps` | include/mclo/container/intrusive_forward_list.hpp:359-384 | for any relation: what is left is in its old order and starts with the first node, a node is taken out only if it is the same as the nearest one left before it, and the next one left is not |
| `ForwardListRemove.UniqueIff` | include/mclo/container/intrusive_forward_list.hpp:359-384 | for an equivalence a node behind the first is left if and only if it is not the same as its neighbour before it |
| `ForwardListRemove.Unique` | include/mclo/container/intrusive_forward_list.hpp:359-384 | the list is the first node of each run of equal ones, with the same promises |
| `ForwardListRemove.ReversedAt` | include/mclo/container/intrusive_forward_list.hpp:329-352 | node k of the reversed list is node k from the end |
| `ForwardListRemove.Reverse` | include/mclo/container/intrusive_forward_list.hpp:329-352 | the list is reversed in place and no other link changes |
| `CopyOnWrite.Released` | include/mclo/memory/copy_on_write.hpp:558-576 | letting a cell go changes the value of that handle only, and keeps every counter the number of holders |
| `CopyOnWrite.Shared` | include/mclo/memory/copy_on_write.hpp:95-101 | another holder reads the same value, and nobody else notices |
| `CopyOnWrite.Written` | include/mclo/memory/copy_on_write.hpp:318-321 | writing in place with a sole holder changes that handle only |
| `CopyOnWrite.NothingLeft` | include/mclo/memory/copy_on_write.hpp:558-576 | when no handle holds anything there is no storage |
| `CopyOnWrite.Objects.Create` | include/mclo/memory/copy_on_write.hpp:578-597 | a cell with counter one, recorded as granted |
| `CopyOnWrite.Objects.Destroy` | include/mclo/memory/copy_on_write.hpp:558-576 | the counter goes down and the last holder frees the cell |
| `CopyOnWrite.Objects.FromValue` | include/mclo/memory/copy_on_write.hpp:159-166 | a new handle with that value |
| `CopyOnWrite.Objects.CopyConstruct` | include/mclo/memory/copy_on_write.hpp:91-107 | a new handle that reads as the other one, sharing its storage if the allocators are equal |
| `CopyOnWrite.Objects.MoveConstruct` | include/mclo/memory/copy_on_write.hpp:111-146 | a new handle with the other's value, and the other valueless |
| `CopyOnWrite.Objects.CopyAssign` | include/mclo/memory/copy_on_write.hpp:227-261 | the handle reads as the other and nothing else changes, self-assignment included |
| `CopyOnWrite.Objects.MoveAssign` | include/mclo/memory/copy_on_write.hpp:268-302 | the same with the other left valueless |
| `CopyOnWrite.Objects.ValueAssign` | include/mclo/memory/copy_on_write.hpp:307-323 | the handle has the value, in place exactly if it was the sole holder |
| `CopyOnWrite.Objects.Modify` | include/mclo/memory/copy_on_write.hpp:384-398 | the function is applied to this handle's value alone, in place exactly if it was the sole holder |
| `CopyOnWrite.Objects.ModifyOrTransform` | include/mclo/memory/copy_on_write.hpp:413-430 | a sole holder's value is changed by the function, a shared one is replaced by its transform, in place exactly for a sole holder |
| `CopyOnWrite.Objects.UseCount` | include/mclo/memory/copy_on_write.hpp:358-363 | the number of handles that share the storage |
| `CopyOnWrite.Objects.Equal` | include/mclo/memory/copy_on_write.hpp:464-484 | equality of the values, with its early answer for shared storage |
| `CopyOnWrite.Objects.Destruct` | include/mclo/memory/copy_on_write.hpp:216-221 | the handle holds nothing and no other handle changes |
| `CopyOnWrite.Objects.AllFreed` | include/mclo/memory/copy_on_write.hpp:558-576 | when every handle has been destroyed each allocation has been freed exactly once |
| `ChaChaKeystream.SameIffPosition` | source/random/chacha.cpp:147-154 | generators are equal if and only if they have the same constants, key and nonce and stand at the same position |
| `ChaChaKeystream.CallMoves` | source/random/chacha.cpp:68-76 | a call gives the result at the position, that of the block RFC 8439 numbers so, and moves on by one |
| `ChaChaKeystream.DiscardMoves` | source/random/chacha.cpp:78-104 | discarding moves the position by the count, past buffer ends and counter wrap |
| `ChaChaKeystream.WithCounterMoves` | source/random/chacha.cpp:106-111 | setting the counter moves to the first result of the block |
| `ChaChaKeystream.DiscardIsCalls` | source/random/chacha.cpp:78-104 | discarding n equals n calls, up to operator==, from every buffer position |
| `ChaChaKeystream.DiscardTwice` | source/random/chacha.cpp:78-104 | discards add up |
| `ChaChaKeystream.SetCounterIsDiscard` | source/random/chacha.cpp:106-111 | setting the counter to b equals seeding and discarding 8 * b |
| `ChaChaKeystream.PeriodIsExact` | source/random/chacha.cpp:143-144 | n calls lead back to an equal generator if and only if n is a multiple of 8 * 2^32 |
| `ChaChaKeystream.CounterIsCurrent` | include/mclo/random/chacha.hpp:65-70 | the counter is the block of the next result if and only if no result is left in the buffer |
| `ChaChaKeystream.RunReadsKeystream` | source/random/chacha.cpp:68-111 | every run of calls, discards and seeks shows what reading the keystream by position shows |
| `ChaChaKeystream.SameForever` | source/random/chacha.cpp:147-154 | equality is kept by every operation and equal generators show the same for ever |
| `ChaCha.SigmaSpells` | source/random/chacha.cpp:41-41 | the constants are the words of "expand 32-byte k" |
| `ChaCha.LoadLe32` | source/random/chacha.cpp:10-19 | four bytes as a little-endian word |
| `ChaCha.FourColumns` | source/random/chacha.cpp:120-124 | the odd round is a quarter round on every column of the square |
| `ChaCha.FourDiagonals` | source/random/chacha.cpp:125-129 | the even round is one on every diagonal |
| `ChaCha.QuarterRoundOf` | source/random/chacha.cpp:21-35 | the twelve statements are the quarter round |
| `ChaCha.DoubleRoundInPlace` | source/random/chacha.cpp:118-130 | a turn of the loop is a double round of section 2.3 of RFC 8439 |
| `ChaCha.RoundsInPlace` | source/random/chacha.cpp:116-130 | the loop makes all double rounds |
| `ChaCha.ResultIsBytes` | source/random/chacha.cpp:137-141 | a result is eight bytes of the serialized block, in little-endian order |
| `ChaCha.Engine.GenerateBlock` | source/random/chacha.cpp:113-145 | the block of the counter in the buffer, and the counter stepped with wrap-around |
| `ChaCha.Engine.AddState` | source/random/chacha.cpp:132-135 | the state is added word by word |
| `ChaCha.Engine.Pair` | source/random/chacha.cpp:137-141 | words are paired into results |
| `ChaCha.Engine.constructor` | source/random/chacha.cpp:38-44 | constants, key, counter zero and nonce laid out as in RFC 8439 |
| `ChaCha.Engine.Seed` | source/random/chacha.cpp:46-66 | the same layout again, whatever came before |
| `ChaCha.Engine.Next` | source/random/chacha.cpp:68-76 | the result at the generator's position |
| `ChaCha.Engine.Discard` | source/random/chacha.cpp:78-104 | a generator equal to the one after that many calls |
| `ChaCha.Engine.SetCounter` | source/random/chacha.cpp:106-111 | the position is the first of the block |
| `ChaCha.Engine.GetCounter` | include/mclo/random/chacha.hpp:67-70 | the block of the position, rounded up |
| `ChaCha.Engine.Equals` | source/random/chacha.cpp:147-154 | true if and only if key, nonce and position are the same |
| `ChaChaExample.Example` | tests/chacha_tests.cpp:18-26 | twenty rounds turn the state of section 2.3.2 of RFC 8439 into the words printed there |
| `ChaChaExample.Sample` | tests/chacha_tests.cpp:116-127 | the block of counter 1 for the sample key and nonce laid out is the eight results the tests expect |
| `ChaChaZeroKey.ChaCha8` | tests/chacha_tests.cpp:78-95 | the first block of chacha8 for the key and the nonce of all zeros is the published one |
| `ChaChaZeroKey.ChaCha12` | tests/chacha_tests.cpp:97-114 | the same for chacha12 |
| `ChaChaZeroKey.ChaCha20` | tests/chacha_tests.cpp:60-76 | and for chacha20 |
| `CompressExpand.BitCompress` | include/mclo/numeric/bit.hpp:144-155 | the loop gathers the bits under the mask, for integers of any width |
| `CompressExpand.BitExpand` | include/mclo/numeric/bit.hpp:157-168 | the loop scatters the low bits to the places of the mask |
| `CompressExpand.ExpandCompressed` | include/mclo/numeric/bit.hpp:144-168 | expanding what was compressed is x & m |
| `CompressExpand.CompressExpanded` | include/mclo/numeric/bit.hpp:144-168 | compressing what was expanded is x cut to as many low bits as the mask has |
| `CompressExpand.CompressedBit` | include/mclo/numeric/bit.hpp:144-155 | the bit at a place of the mask goes to the number of mask bits below it, so the order is kept |
| `CompressExpand.CompressedBelow` | include/mclo/numeric/bit.hpp:144-155 | there are no other bits in the result |
| `CompressExpand.ExpandedBit` | include/mclo/numeric/bit.hpp:157-168 | every bit of the expanded number |
| `CompressExpand.FitsWidth` | include/mclo/numeric/bit.hpp:144-168 | no bit leaves the width |
| `CompressExpand.BitRepeat` | include/mclo/numeric/bit.hpp:121-138 | bit k of the result is bit k % length of the value |
| `CompressExpand.RepeatWhole` | include/mclo/numeric/bit.hpp:121-138 | a pattern as long as the integer gives the integer |
| `BitReverse.BitReverse` | include/mclo/numeric/bit.hpp:109-118 | every bit is at the mirrored place, for 8, 16, 32 and 64 bits |

## Left out

- Memory orders: every atomic operation of the two lock-free structures is one indivisible step, in one order that all threads see.
- Widths of `std::int64_t` access counts and indices and of the `std::int32_t` strong count: these are unbounded; the 32-bit external counter wraps.
- Counter loops: a failed turn of a compare-exchange loop on an object's counter word is a step that changes nothing.
- AtomicSharedPtrTheorems.AllRuns: assumes that the reservations of an object and its debt stay below 2^32 together.
- Progress of `atomic_shared_ptr` under contention: lock freedom, and how often a loop goes round while others interfere, are not stated; only what an operation left alone does.
- WorkStealingProofs.ExactlyOnce: under sequential consistency; what the relaxed orders permit between the two fences is not modelled. `empty` and the destructor of the deque are left out.
- Allocators, exceptions, moves that throw, construction in place and `noexcept`: allocation always succeeds; the copy-on-write methods get the address the allocator returned.
- DenseSlotMap.SlotMap.Erase: not for a handle that passes the check on a free slot whose link is past the data, for which the source writes out of bounds.
- DenseSlotMap.SlotMap.Pop: not for such a handle either. What a caller of `lookup` does with a position past the data is its own.
- DenseSlotMap.SlotMap.Clear: not for a slot map that never had a slot. `reset`, moved-from slot maps, iteration and capacity are left out.
- FixedPointParse.FromChars: a number out of range whose whole part fits 64 bits is stored modulo 2^bits; for some signed representations the source overflows the wider type there. `std::to_chars` and `std::from_chars` are digit functions: the latter passes over a whole part that does not fit 64 bits and reports it.
- FixedPointPrint.ToChars: precisions up to 40, as the buffer is sized for; streams and `std::format` are left out, as is the arithmetic of `fixed_point`.
- RadixSort.RadixSort: moved-from elements of the source keep their value.
- MurmurHash3Stream.Hasher.Finish: the length is reduced modulo 2^32 where the source asserts that it is below.
- Pointers of the list are indices into one table of links, and its length is the null pointer; a list of 2^64 nodes or more is excluded. Hook types, iterators, insertion and erasure are left out.
- Copy-on-write: concurrent use, `swap`, ordering and construction from several arguments are left out; two allocators are equal when their numbers are.
- ChaCha.QuarterRoundOf: on values; the source passes four references to words of one array.
- Hardware instructions: `_pext`, `_pdep` and the bit-reversing built-ins are foreign; the portable loops are modelled.
- The rest of the library: bitsets, packed integers, perfect hashing, xoshiro jumps, wide conversion, strings, mutexes and the other containers.
