/**
 `copy_on_write`: handles that share reference-counted storage until one of them is written.  Sharing cannot be
 seen: through any sequence of operations every handle reads as a value of its own.

 Storage is a table from addresses to cells.  `addr` is the address the allocator returns, any address without a
 cell; allocators that compare equal are equal numbers.
 */
module CopyOnWrite {
  import opened Wrappers

  datatype Handle = Handle(ptr: Option<nat>, alloc: nat)

  datatype Cell<T> = Cell(counter: nat, value: T, alloc: nat)

  /** The number of handles that hold the cell at p. */
  function Holders(handles: seq<Handle>, p: nat): nat {
    if handles == [] then 0
    else Holders(handles[..|handles| - 1], p) + if handles[|handles| - 1].ptr == Some(p) then 1 else 0
  }

  function Holds(h: Handle, p: nat): nat {
    if h.ptr == Some(p) then 1 else 0
  }

  lemma {:induction false} HoldersUpdate(handles: seq<Handle>, i: nat, h: Handle, p: nat)
    requires i < |handles|
    ensures Holders(handles[i := h], p) + Holds(handles[i], p) == Holders(handles, p) + Holds(h, p)
  {
    var m := |handles| - 1;
    if i < m {
      HoldersUpdate(handles[..m], i, h, p);
      assert handles[i := h][..m] == handles[..m][i := h];
    } else {
      assert handles[i := h][..m] == handles[..m];
    }
  }

  lemma HoldersPush(handles: seq<Handle>, h: Handle, p: nat)
    ensures Holders(handles + [h], p) == Holders(handles, p) + Holds(h, p)
  {
    assert (handles + [h])[..|handles|] == handles;
  }

  lemma {:induction false} SomeHolder(handles: seq<Handle>, p: nat) returns (i: nat)
    requires Holders(handles, p) > 0
    ensures i < |handles| && handles[i].ptr == Some(p)
  {
    i := |handles| - 1;
    if handles[i].ptr != Some(p) {
      i := SomeHolder(handles[..i], p);
    }
  }

  /** Two handles that hold the same cell make at least two holders. */
  lemma TwoHolders(handles: seq<Handle>, i: nat, j: nat, p: nat)
    requires i < |handles| && j < |handles| && i != j && handles[i].ptr == handles[j].ptr == Some(p)
    ensures Holders(handles, p) >= 2
  {
    var none := handles[i].(ptr := None);
    HoldersUpdate(handles, i, none, p);
    HoldersUpdate(handles[i := none], j, none, p);
  }

  /** Counters are the numbers of holders, no cell is without one, and handles hold cells of their own allocator. */
  ghost predicate Consistent<T>(handles: seq<Handle>, cells: map<nat, Cell<T>>) {
    && (forall p :: p in cells ==> cells[p].counter == Holders(handles, p) >= 1)
    && (forall i :: 0 <= i < |handles| ==> Points(handles[i], cells))
  }

  ghost predicate Points<T>(h: Handle, cells: map<nat, Cell<T>>) {
    h.ptr.Some? ==> h.ptr.value in cells && cells[h.ptr.value].alloc == h.alloc
  }

  function Read<T>(h: Handle, cells: map<nat, Cell<T>>): Option<T>
    requires h.ptr.Some? ==> h.ptr.value in cells
  {
    if h.ptr.None? then None else Some(cells[h.ptr.value].value)
  }

  /** What each handle reads as; None is the valueless state. */
  ghost function Values<T>(handles: seq<Handle>, cells: map<nat, Cell<T>>): (vs: seq<Option<T>>)
    requires Consistent(handles, cells)
    ensures |vs| == |handles|
  {
    seq(|handles|, i requires 0 <= i < |handles| => assert Points(handles[i], cells); Read(handles[i], cells))
  }

  // -------------------------------------------------------------- the elementary changes

  /** A new cell for handle i, which holds none. */
  lemma Created<T>(handles: seq<Handle>, cells: map<nat, Cell<T>>, i: nat, p: nat, v: T)
    requires Consistent(handles, cells) && i < |handles| && handles[i].ptr.None? && p !in cells
    ensures var h, c := handles[i := handles[i].(ptr := Some(p))], cells[p := Cell(1, v, handles[i].alloc)];
      Consistent(h, c) && Values(h, c) == Values(handles, cells)[i := Some(v)]
  {
    var h, c := handles[i := handles[i].(ptr := Some(p))], cells[p := Cell(1, v, handles[i].alloc)];
    NoHolder(handles, cells, p);
    forall q | q in c ensures c[q].counter == Holders(h, q) >= 1 {
      HoldersUpdate(handles, i, h[i], q);
    }
    forall j | 0 <= j < |h| ensures Points(h[j], c) && (j != i ==> Read(h[j], c) == Read(handles[j], cells)) {
      assert Points(handles[j], cells);
    }
  }

  lemma NoHolder<T>(handles: seq<Handle>, cells: map<nat, Cell<T>>, p: nat)
    requires Consistent(handles, cells) && p !in cells
    ensures Holders(handles, p) == 0
  {
    if Holders(handles, p) > 0 {
      HeldHasCell(handles, cells, p);
    }
  }

  lemma HeldHasCell<T>(handles: seq<Handle>, cells: map<nat, Cell<T>>, p: nat)
    requires Consistent(handles, cells) && Holders(handles, p) > 0
    ensures p in cells
  {
    var i := SomeHolder(handles, p);
    assert Points(handles[i], cells);
  }

  /** One more holder. */
  lemma Shared<T>(handles: seq<Handle>, cells: map<nat, Cell<T>>, i: nat, p: nat)
    requires Consistent(handles, cells) && i < |handles| && handles[i].ptr.None? && p in cells
    requires cells[p].alloc == handles[i].alloc
    ensures var h, c := handles[i := handles[i].(ptr := Some(p))],
      cells[p := cells[p].(counter := cells[p].counter + 1)];
      Consistent(h, c) && Values(h, c) == Values(handles, cells)[i := Some(cells[p].value)]
  {
    var h, c := handles[i := handles[i].(ptr := Some(p))], cells[p := cells[p].(counter := cells[p].counter + 1)];
    forall q | q in c ensures c[q].counter == Holders(h, q) >= 1 {
      HoldersUpdate(handles, i, h[i], q);
    }
    forall j | 0 <= j < |h| ensures Points(h[j], c) && (j != i ==> Read(h[j], c) == Read(handles[j], cells)) {
      assert Points(handles[j], cells);
    }
  }

  /** What is left in the table when handle i lets go: the cell goes with its last holder. */
  function Dropped<T>(cells: map<nat, Cell<T>>, p: nat): map<nat, Cell<T>>
    requires p in cells && cells[p].counter >= 1
  {
    if cells[p].counter == 1 then cells - {p} else cells[p := cells[p].(counter := cells[p].counter - 1)]
  }

  lemma Released<T>(handles: seq<Handle>, cells: map<nat, Cell<T>>, i: nat, p: nat)
    requires Consistent(handles, cells) && i < |handles| && handles[i].ptr == Some(p)
    ensures p in cells && cells[p].counter >= 1
    ensures var h, c := handles[i := handles[i].(ptr := None)], Dropped(cells, p);
      Consistent(h, c) && Values(h, c) == Values(handles, cells)[i := None]
  {
    assert Points(handles[i], cells);
    var h, c := handles[i := handles[i].(ptr := None)], Dropped(cells, p);
    forall q | q in c ensures c[q].counter == Holders(h, q) >= 1 {
      HoldersUpdate(handles, i, h[i], q);
    }
    forall j | 0 <= j < |h| ensures Points(h[j], c) && (j != i ==> Read(h[j], c) == Read(handles[j], cells)) {
      assert Points(handles[j], cells);
      if j != i && handles[j].ptr == Some(p) {
        TwoHolders(handles, i, j, p);
      }
    }
  }

  /** A sole holder writes in place. */
  lemma Written<T>(handles: seq<Handle>, cells: map<nat, Cell<T>>, i: nat, p: nat, v: T)
    requires Consistent(handles, cells) && i < |handles| && handles[i].ptr == Some(p)
    requires p in cells && cells[p].counter == 1
    ensures var c := cells[p := cells[p].(value := v)];
      Consistent(handles, c) && Values(handles, c) == Values(handles, cells)[i := Some(v)]
  {
    var c := cells[p := cells[p].(value := v)];
    forall j | 0 <= j < |handles|
      ensures Points(handles[j], c) && (j != i ==> Read(handles[j], c) == Read(handles[j], cells))
    {
      assert Points(handles[j], cells);
      if j != i && handles[j].ptr == Some(p) {
        TwoHolders(handles, i, j, p);
      }
    }
  }

  /** A pointer passes from one handle to another that holds none and has the same allocator. */
  lemma Passed<T>(handles: seq<Handle>, cells: map<nat, Cell<T>>, i: nat, j: nat)
    requires Consistent(handles, cells) && i < |handles| && j < |handles| && i != j
    requires handles[i].ptr.None? && handles[i].alloc == handles[j].alloc
    ensures var h := handles[i := handles[i].(ptr := handles[j].ptr)][j := handles[j].(ptr := None)];
      Consistent(h, cells) && Values(h, cells) == Values(handles, cells)[i := Values(handles, cells)[j]][j := None]
  {
    var h1 := handles[i := handles[i].(ptr := handles[j].ptr)];
    var h := h1[j := handles[j].(ptr := None)];
    forall q | q in cells ensures Holders(h, q) == Holders(handles, q) {
      HoldersUpdate(handles, i, h1[i], q);
      HoldersUpdate(h1, j, h[j], q);
    }
    forall k | 0 <= k < |h| ensures Points(h[k], cells) {
      assert Points(handles[k], cells) && Points(handles[j], cells);
    }
  }

  /** A new valueless handle. */
  lemma Added<T>(handles: seq<Handle>, cells: map<nat, Cell<T>>, alloc: nat)
    requires Consistent(handles, cells)
    ensures Consistent(handles + [Handle(None, alloc)], cells)
    ensures Values(handles + [Handle(None, alloc)], cells) == Values(handles, cells) + [None]
  {
    var h := handles + [Handle(None, alloc)];
    forall q | q in cells ensures Holders(h, q) == Holders(handles, q) {
      HoldersPush(handles, Handle(None, alloc), q);
    }
    forall k | 0 <= k < |h| ensures Points(h[k], cells) {
      assert k < |handles| ==> Points(handles[k], cells);
    }
  }

  /** A valueless handle may change its allocator. */
  lemma Reallocated<T>(handles: seq<Handle>, cells: map<nat, Cell<T>>, i: nat, alloc: nat)
    requires Consistent(handles, cells) && i < |handles| && handles[i].ptr.None?
    ensures Consistent(handles[i := handles[i].(alloc := alloc)], cells)
    ensures Values(handles[i := handles[i].(alloc := alloc)], cells) == Values(handles, cells)
  {
    var h := handles[i := handles[i].(alloc := alloc)];
    forall q | q in cells ensures Holders(h, q) == Holders(handles, q) {
      HoldersUpdate(handles, i, h[i], q);
    }
    forall k | 0 <= k < |h| ensures Points(h[k], cells) {
      assert Points(handles[k], cells);
    }
  }

  /** When no handle holds anything there is no storage left. */
  lemma NothingLeft<T>(handles: seq<Handle>, cells: map<nat, Cell<T>>)
    requires Consistent(handles, cells) && forall i :: 0 <= i < |handles| ==> handles[i].ptr.None?
    ensures cells == map[]
  {
    forall p | p in cells ensures false {
      var i := SomeHolder(handles, p);
    }
  }

  /** Counting the new holder before the old one lets go ends where the other order does. */
  lemma ShareFirst<T>(handles: seq<Handle>, cells: map<nat, Cell<T>>, i: nat, j: nat, p: nat)
    requires Consistent(handles, cells) && i < |handles| && j < |handles| && i != j && handles[j].ptr == Some(p)
    ensures p in cells && cells[p].counter >= 1
    ensures handles[i].ptr.Some? ==>
      var q, more := handles[i].ptr.value, cells[p := cells[p].(counter := cells[p].counter + 1)];
      && q in cells && cells[q].counter >= 1 && q in more && more[q].counter >= 1
      && p in Dropped(cells, q) && Dropped(cells, q)[p].alloc == cells[p].alloc
      && Dropped(cells, q)[p].value == cells[p].value
      && Dropped(more, q) == Dropped(cells, q)[p := Dropped(cells, q)[p].(counter := Dropped(cells, q)[p].counter + 1)]
  {
    assert Points(handles[i], cells) && Points(handles[j], cells);
    if handles[i].ptr == Some(p) {
      TwoHolders(handles, i, j, p);
    }
  }

  lemma ReplacedKeeps<T>(handles: seq<Handle>, cells: map<nat, Cell<T>>, i: nat, addr: nat, v: T)
    requires Consistent(handles, cells) && i < |handles| && addr !in cells
    ensures handles[i].ptr.Some? ==> handles[i].ptr.value in cells && cells[handles[i].ptr.value].counter >= 1
    ensures var h, made := handles[i := handles[i].(ptr := Some(addr))], cells[addr := Cell(1, v, handles[i].alloc)];
      var c := if handles[i].ptr.None? then made else Dropped(made, handles[i].ptr.value);
      Consistent(h, c) && Values(h, c) == Values(handles, cells)[i := Some(v)]
  {
    var cell := Cell(1, v, handles[i].alloc);
    if handles[i].ptr.None? {
      Created(handles, cells, i, addr, v);
    } else {
      var q := handles[i].ptr.value;
      Released(handles, cells, i, q);
      var h := handles[i := handles[i].(ptr := None)];
      Created(h, Dropped(cells, q), i, addr, v);
      assert Dropped(cells[addr := cell], q) == Dropped(cells, q)[addr := cell];
      assert h[i := h[i].(ptr := Some(addr))] == handles[i := handles[i].(ptr := Some(addr))];
    }
  }

  lemma SharedKeeps<T>(handles: seq<Handle>, cells: map<nat, Cell<T>>, i: nat, j: nat, p: nat)
    requires Consistent(handles, cells) && i < |handles| && j < |handles| && i != j && handles[j].ptr == Some(p)
    ensures p in cells
    ensures handles[i].ptr.Some? ==> handles[i].ptr.value in cells && cells[handles[i].ptr.value].counter >= 1
    ensures var more := cells[p := cells[p].(counter := cells[p].counter + 1)];
      var h, c := handles[i := handles[j]], if handles[i].ptr.None? then more else Dropped(more, handles[i].ptr.value);
      Consistent(h, c) && Values(h, c) == Values(handles, cells)[i := Values(handles, cells)[j]]
  {
    assert Points(handles[j], cells);
    ShareFirst(handles, cells, i, j, p);
    var h, c := handles, cells;
    if handles[i].ptr.Some? {
      var q := handles[i].ptr.value;
      Released(handles, cells, i, q);
      h, c := handles[i := handles[i].(ptr := None)], Dropped(cells, q);
    }
    Reallocated(h, c, i, handles[j].alloc);
    var h1 := h[i := h[i].(alloc := handles[j].alloc)];
    Shared(h1, c, i, p);
    assert h1[i := h1[i].(ptr := Some(p))] == handles[i := handles[j]];
    assert Values(handles, cells)[j] == Some(cells[p].value);
  }

  /** A handle with a cell that no other handle has. */
  lemma SoleHolder<T>(handles: seq<Handle>, cells: map<nat, Cell<T>>, i: nat, p: nat)
    requires Consistent(handles, cells) && i < |handles| && handles[i].ptr == Some(p)
    requires p in cells && cells[p].counter == 1
    ensures Holders(handles, p) == 1
  {}

  // -------------------------------------------------------------- the objects of a program

  class Objects<T(==)> {
    const propagateCopy: bool  // propagate_on_container_copy_assignment
    const propagateMove: bool  // propagate_on_container_move_assignment

    var handles: seq<Handle>
    var cells: map<nat, Cell<T>>

    ghost var granted: multiset<nat>
    ghost var freed: multiset<nat>

    /** Every allocation is live or has been freed, once. */
    ghost predicate Ledger()
      reads this
    {
      forall p: nat :: granted[p] == freed[p] + if p in cells then 1 else 0
    }

    ghost predicate Valid()
      reads this
    {
      Consistent(handles, cells) && Ledger()
    }

    ghost function View(): seq<Option<T>>
      requires Valid()
      reads this
    {
      Values(handles, cells)
    }

    constructor (propagateCopy: bool, propagateMove: bool)
      ensures Valid() && View() == [] && handles == []
    {
      this.propagateCopy, this.propagateMove := propagateCopy, propagateMove;
      handles, cells, granted, freed := [], map[], multiset{}, multiset{};
    }

    /** create: a cell with one holder to be. */
    method Create(p: nat, v: T, alloc: nat)
      requires p !in cells && Ledger()
      modifies `cells, `granted
      ensures cells == old(cells)[p := Cell(1, v, alloc)] && Ledger()
    {
      cells, granted := cells[p := Cell(1, v, alloc)], granted + multiset{p};
    }

    /** destroy: the count goes down and the last holder frees the cell. */
    method Destroy(i: nat)
      requires i < |handles| && Ledger()
      requires handles[i].ptr.Some? ==> handles[i].ptr.value in cells && cells[handles[i].ptr.value].counter >= 1
      modifies this
      ensures Ledger() && handles == old(handles)[i := old(handles)[i].(ptr := None)]
      ensures cells == if old(handles)[i].ptr.None? then old(cells) else Dropped(old(cells), old(handles)[i].ptr.value)
    {
      if handles[i].ptr.Some? {
        var p := handles[i].ptr.value;
        var before := cells[p].counter;
        cells := cells[p := cells[p].(counter := before - 1)];
        if before == 1 {
          cells, freed := cells - {p}, freed + multiset{p};
        }
      }
      handles := handles[i := handles[i].(ptr := None)];
    }

    /** The destructor: the handle holds nothing any more. */
    method Destruct(i: nat)
      requires Valid() && i < |handles|
      modifies this
      ensures Valid() && View() == old(View())[i := None] && handles[i].ptr.None?
      ensures handles == old(handles)[i := handles[i]] && handles[i].alloc == old(handles)[i].alloc
    {
      assert Points(handles[i], cells);
      if handles[i].ptr.Some? {
        Released(handles, cells, i, handles[i].ptr.value);
      } else {
        assert handles[i := handles[i].(ptr := None)] == handles && View()[i] == None;
      }
      Destroy(i);
    }

    /** A handle that holds nothing gets a cell of its own. */
    method Hold(i: nat, p: nat, v: T)
      requires Valid() && i < |handles| && handles[i].ptr.None? && p !in cells
      modifies this
      ensures Valid() && View() == old(View())[i := Some(v)]
      ensures handles == old(handles)[i := old(handles)[i].(ptr := Some(p))]
    {
      Created(handles, cells, i, p, v);
      Create(p, v, handles[i].alloc);
      handles := handles[i := handles[i].(ptr := Some(p))];
    }

    method NewHandle(alloc: nat) returns (i: nat)
      requires Valid()
      modifies this
      ensures Valid() && i == old(|handles|) && View() == old(View()) + [None]
      ensures handles == old(handles) + [Handle(None, alloc)] && cells == old(cells)
    {
      Added(handles, cells, alloc);
      i := |handles|;
      handles := handles + [Handle(None, alloc)];
    }

    /** Construction from a value. */
    method FromValue(alloc: nat, v: T, addr: nat) returns (i: nat)
      requires Valid() && addr !in cells
      modifies this
      ensures Valid() && i == old(|handles|) && View() == old(View()) + [Some(v)]
    {
      i := NewHandle(alloc);
      Hold(i, addr, v);
    }

    /** Copy construction: shared storage if the allocators are equal, a copy of the value otherwise. */
    method CopyConstruct(alloc: nat, j: nat, addr: nat) returns (i: nat)
      requires Valid() && j < |handles| && addr !in cells
      modifies this
      ensures Valid() && i == old(|handles|) && View() == old(View()) + [old(View())[j]]
      ensures alloc == old(handles)[j].alloc ==> handles[i].ptr == old(handles)[j].ptr
    {
      assert Points(handles[j], cells);
      i := NewHandle(alloc);
      if handles[j].ptr.Some? {
        if handles[i].alloc == handles[j].alloc {
          Share(i, j);
        } else {
          Hold(i, addr, cells[handles[j].ptr.value].value);
        }
      }
    }

    /** A handle that holds nothing becomes another holder of j's cell. */
    method Share(i: nat, j: nat)
      requires Valid() && i < |handles| && j < |handles| && i != j
      requires handles[i].ptr.None? && handles[j].ptr.Some? && handles[i].alloc == handles[j].alloc
      modifies `handles, `cells
      ensures Valid() && View() == old(View())[i := old(View())[j]] && handles[i].ptr == old(handles)[j].ptr
    {
      ghost var view := View();
      var p := handles[j].ptr.value;
      assert Points(handles[j], cells) && view[j] == Some(cells[p].value);
      Shared(handles, cells, i, p);
      cells := cells[p := cells[p].(counter := cells[p].counter + 1)];
      handles := handles[i := handles[i].(ptr := Some(p))];
    }

    /** Move construction with an allocator: storage is stolen if it can be, copied and let go otherwise. */
    method MoveConstruct(alloc: nat, j: nat, addr: nat) returns (i: nat)
      requires Valid() && j < |handles| && addr !in cells
      modifies this
      ensures Valid() && i == old(|handles|) && View() == old(View())[j := None] + [old(View())[j]]
    {
      assert Points(handles[j], cells);
      i := NewHandle(alloc);
      if handles[i].alloc == handles[j].alloc {
        PassPointer(i, j);
      } else if handles[j].ptr.Some? {
        Hold(i, addr, cells[handles[j].ptr.value].value);
        Destruct(j);
      }
    }

    /** A private cell replaces what the handle holds; it is made before the old one is let go. */
    method Replace(i: nat, addr: nat, v: T)
      requires Valid() && i < |handles| && addr !in cells
      modifies this
      ensures Valid() && View() == old(View())[i := Some(v)]
      ensures handles == old(handles)[i := old(handles)[i].(ptr := Some(addr))]
      ensures addr in cells && cells[addr].counter == 1
    {
      ghost var h, c := handles, cells;
      assert Points(h[i], c);
      Create(addr, v, handles[i].alloc);
      Destroy(i);
      handles := handles[i := handles[i].(ptr := Some(addr))];
      ReplacedKeeps(h, c, i, addr, v);
      ghost var made := c[addr := Cell(1, v, h[i].alloc)];
      assert handles == h[i := h[i].(ptr := Some(addr))];
      assert cells == if h[i].ptr.None? then made else Dropped(made, h[i].ptr.value);
    }

    /** Another holder of j's cell, counted before the old one is let go; the allocator follows if it propagates. */
    method ShareAssign(i: nat, j: nat)
      requires Valid() && i < |handles| && j < |handles| && i != j && handles[j].ptr.Some?
      requires propagateCopy || handles[i].alloc == handles[j].alloc
      modifies this
      ensures Valid() && View() == old(View())[i := old(View())[j]]
      ensures handles == old(handles)[i := old(handles)[j]]
    {
      ghost var h, c := handles, cells;
      var p := handles[j].ptr.value;
      ShareFirst(h, c, i, j, p);
      assert Points(h[i], c) && Points(h[j], c);
      cells := cells[p := cells[p].(counter := cells[p].counter + 1)];
      Destroy(i);
      handles := handles[i := Handle(Some(p), if propagateCopy then handles[j].alloc else handles[i].alloc)];
      SharedKeeps(h, c, i, j, p);
      ghost var more := c[p := c[p].(counter := c[p].counter + 1)];
      assert handles == h[i := h[j]];
      assert cells == if h[i].ptr.None? then more else Dropped(more, h[i].ptr.value);
    }

    /** Assignment from a valueless handle. */
    method AssignNothing(i: nat, j: nat, propagate: bool)
      requires Valid() && i < |handles| && j < |handles| && i != j && handles[j].ptr.None?
      modifies this
      ensures Valid() && View() == old(View())[i := None]
    {
      Destruct(i);
      if propagate {
        Reallocated(handles, cells, i, handles[j].alloc);
        handles := handles[i := handles[i].(alloc := handles[j].alloc)];
      }
    }

    /** Copy assignment from another handle. */
    method CopyAssign(i: nat, j: nat, addr: nat)
      requires Valid() && i < |handles| && j < |handles| && addr !in cells
      modifies this
      ensures Valid() && View() == old(View())[i := old(View())[j]]
    {
      assert Points(handles[j], cells);
      if i == j {
        return;
      }
      if handles[j].ptr.None? {
        AssignNothing(i, j, propagateCopy);
      } else if propagateCopy || handles[i].alloc == handles[j].alloc {
        ShareAssign(i, j);
      } else {
        Replace(i, addr, cells[handles[j].ptr.value].value);
      }
    }

    /** The pointer is taken over, with the allocator if it propagates. */
    method StealAssign(i: nat, j: nat)
      requires Valid() && i < |handles| && j < |handles| && i != j
      requires propagateMove || handles[i].alloc == handles[j].alloc
      modifies this
      ensures Valid() && View() == old(View())[i := old(View())[j]][j := None]
    {
      Destruct(i);
      if propagateMove {
        Reallocated(handles, cells, i, handles[j].alloc);
        handles := handles[i := handles[i].(alloc := handles[j].alloc)];
      }
      PassPointer(i, j);
    }

    method PassPointer(i: nat, j: nat)
      requires Valid() && i < |handles| && j < |handles| && i != j
      requires handles[i].ptr.None? && handles[i].alloc == handles[j].alloc
      modifies `handles
      ensures Valid() && View() == old(View())[i := old(View())[j]][j := None]
    {
      Passed(handles, cells, i, j);
      handles := handles[i := handles[i].(ptr := handles[j].ptr)][j := handles[j].(ptr := None)];
    }

    /** Move assignment: the source is left valueless. */
    method MoveAssign(i: nat, j: nat, addr: nat)
      requires Valid() && i < |handles| && j < |handles| && addr !in cells
      modifies this
      ensures Valid()
      ensures View() == if i == j then old(View()) else old(View())[i := old(View())[j]][j := None]
    {
      assert Points(handles[j], cells);
      if i == j {
        return;
      }
      if handles[j].ptr.None? {
        assert View()[j] == None;
        AssignNothing(i, j, propagateMove);
      } else if propagateMove || handles[i].alloc == handles[j].alloc {
        StealAssign(i, j);
      } else {
        Replace(i, addr, cells[handles[j].ptr.value].value);
        Destruct(j);
      }
    }

    /** In place, for a sole holder. */
    method Write(i: nat, v: T)
      requires Valid() && i < |handles| && handles[i].ptr.Some?
      requires Holders(handles, handles[i].ptr.value) == 1
      modifies `cells
      ensures Valid() && View() == old(View())[i := Some(v)]
    {
      assert Points(handles[i], cells);
      var p := handles[i].ptr.value;
      Written(handles, cells, i, p, v);
      cells := cells[p := cells[p].(value := v)];
    }

    /** The number of handles that share the cell. */
    method UseCount(i: nat) returns (n: nat)
      requires Valid() && i < |handles| && handles[i].ptr.Some?
      ensures n == Holders(handles, handles[i].ptr.value) >= 1
    {
      assert Points(handles[i], cells);
      n := cells[handles[i].ptr.value].counter;
    }

    /** Assignment of a value: in place if unique, in new storage if shared or valueless. */
    method ValueAssign(i: nat, v: T, addr: nat)
      requires Valid() && i < |handles| && addr !in cells
      modifies this
      ensures Valid() && View() == old(View())[i := Some(v)]
      ensures handles[i].ptr == if old(Unique(i)) then old(handles[i].ptr) else Some(addr)
    {
      var count := 0;
      if handles[i].ptr.Some? {
        count := UseCount(i);
      }
      if count != 1 {
        Replace(i, addr, v);
      } else {
        Write(i, v);
      }
    }

    ghost predicate Unique(i: nat)
      requires i < |handles|
      reads this
    {
      handles[i].ptr.Some? && Holders(handles, handles[i].ptr.value) == 1
    }

    /** modify: a shared value is copied before the function is applied. */
    method Modify(i: nat, f: T -> T, addr: nat)
      requires Valid() && i < |handles| && handles[i].ptr.Some? && addr !in cells
      modifies this
      ensures Valid() && old(View())[i].Some? && View() == old(View())[i := Some(f(old(View())[i].value))]
      ensures handles[i].ptr == if old(Unique(i)) then old(handles[i].ptr) else Some(addr)
    {
      assert Points(handles[i], cells);
      ghost var was := View();
      var v := cells[handles[i].ptr.value].value;
      assert was[i] == Some(v);
      var count := UseCount(i);
      if count > 1 {
        Replace(i, addr, v);
        SoleHolder(handles, cells, i, addr);
      }
      Write(i, f(v));
    }

    /** modify with two functions: what a shared holder gets is the transform of the value. */
    method ModifyOrTransform(i: nat, f: T -> T, transform: T -> T, addr: nat)
      requires Valid() && i < |handles| && handles[i].ptr.Some? && addr !in cells
      modifies this
      ensures Valid() && old(View())[i].Some?
      ensures var v := old(View())[i].value;
        View() == old(View())[i := Some(if old(Unique(i)) then f(v) else transform(v))]
      ensures handles[i].ptr == if old(Unique(i)) then old(handles[i].ptr) else Some(addr)
    {
      assert Points(handles[i], cells);
      var v := cells[handles[i].ptr.value].value;
      assert View()[i] == Some(v);
      var count := UseCount(i);
      if count > 1 {
        Replace(i, addr, transform(v));
      } else {
        Write(i, f(v));
      }
    }

    /** Equality of two handles, with the early answer for shared storage. */
    method Equal(i: nat, j: nat) returns (same: bool)
      requires Valid() && i < |handles| && j < |handles|
      ensures same <==> View()[i] == View()[j]
    {
      assert Points(handles[i], cells) && Points(handles[j], cells);
      if handles[i].ptr.None? {
        return handles[j].ptr.None?;
      } else if handles[j].ptr.None? {
        return false;
      }
      if handles[i].ptr == handles[j].ptr {
        return true;
      }
      same := cells[handles[i].ptr.value].value == cells[handles[j].ptr.value].value;
    }

    /** When every handle has been destroyed, every allocation has been freed exactly once. */
    lemma AllFreed()
      requires Valid() && forall i :: 0 <= i < |handles| ==> handles[i].ptr.None?
      ensures forall p: nat :: freed[p] == granted[p]
    {
      NothingLeft(handles, cells);
    }
  }
}
