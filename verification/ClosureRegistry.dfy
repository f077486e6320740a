/** The slab of closures in `closure.rs`: slots reused through a free list, with two
    extra states for a closure that is running and for one dropped while it runs. */
module ClosureRegistry {
  import opened Wrappers

  datatype Slot<T> =
    | Vacant             // `Empty`: free, and on the free list
    | Filled(value: T)
    | Borrowed           // executing; the value is on the stack in the trampoline
    | Dropped            // dropped mid-call

  datatype Slab<T> = Slab(slots: seq<Slot<T>>, free: seq<nat>)

  /** Ids cross to JavaScript as `u32`. */
  const IDS: nat := 0x1_0000_0000

  predicate WellFormed<T>(s: Slab<T>) {
    forall k :: 0 <= k < |s.free| ==> s.free[k] < |s.slots|
  }

  /** The index `insert` fills: the last freed one, or a new one at the end. */
  function NextIndex<T>(s: Slab<T>): nat {
    if s.free != [] then s.free[|s.free| - 1] else |s.slots|
  }

  function Inserted<T>(s: Slab<T>, value: T): Slab<T>
    requires WellFormed(s)
  {
    if s.free != [] then Slab(s.slots[NextIndex(s) := Filled(value)], s.free[..|s.free| - 1])
    else Slab(s.slots + [Filled(value)], s.free)
  }

  predicate Callable<T>(s: Slab<T>, id: nat) {
    id < |s.slots| && s.slots[id].Filled?
  }

  function BorrowedOut<T>(s: Slab<T>, id: nat): Slab<T> {
    if Callable(s, id) then s.(slots := s.slots[id := Borrowed]) else s
  }

  /** Whether giving the value back destroys it instead. */
  predicate Discards<T>(s: Slab<T>, id: nat) {
    id >= |s.slots| || s.slots[id] == Dropped
  }

  function GivenBack<T>(s: Slab<T>, id: nat, value: T): Slab<T> {
    if id >= |s.slots| then s
    else if s.slots[id] == Dropped then Slab(s.slots[id := Vacant], s.free + [id])
    else s.(slots := s.slots[id := Filled(value)])
  }

  function Removed<T>(s: Slab<T>, id: nat): Slab<T> {
    if id >= |s.slots| then s
    else match s.slots[id]
      case Borrowed => s.(slots := s.slots[id := Dropped])
      case Filled(_) => Slab(s.slots[id := Vacant], s.free + [id])
      case _ => s
  }

  predicate InUse<T>(slot: Slot<T>) {
    slot == Borrowed || slot == Dropped
  }

  /** The free list has no duplicates and is exactly the vacant slots. */
  ghost predicate FreeIsVacant<T>(slab: Slab<T>) {
    && (forall i, j :: 0 <= i < j < |slab.free| ==> slab.free[i] != slab.free[j])
    && (forall i :: 0 <= i < |slab.free| ==> slab.free[i] < |slab.slots|)
    && (forall id :: 0 <= id < |slab.slots| ==> (slab.slots[id] == Vacant <==> id in slab.free))
  }

  lemma InsertedFree<T>(s: Slab<T>, value: T)
    requires FreeIsVacant(s)
    ensures WellFormed(s) && FreeIsVacant(Inserted(s, value))
    ensures s.free != [] ==> s.slots[NextIndex(s)] == Vacant
  {
  }

  lemma RemovedFree<T>(s: Slab<T>, id: nat)
    requires FreeIsVacant(s)
    ensures FreeIsVacant(Removed(s, id))
  {
  }

  lemma GivenBackFree<T>(s: Slab<T>, id: nat, value: T)
    requires FreeIsVacant(s) && (id < |s.slots| ==> InUse(s.slots[id]))
    ensures FreeIsVacant(GivenBack(s, id, value))
  {
  }

  /** Freed slots are reused last first, filled with the new values, before any new slot is
      made; and a new one goes at the end. */
  lemma LastFreedFirstUsed<T>(s: Slab<T>, a: nat, b: nat, v: T, w: T)
    requires FreeIsVacant(s) && Callable(s, a) && Callable(s, b) && a != b
    ensures var t := Removed(Removed(s, a), b);
      && NextIndex(t) == b && NextIndex(Inserted(t, v)) == a
      && Inserted(Inserted(t, v), w) == Slab(s.slots[a := Filled(w)][b := Filled(v)], s.free)
    ensures s.free == [] ==> NextIndex(s) == |s.slots| && Inserted(s, v) == Slab(s.slots + [Filled(v)], [])
  {
    RemovedFree(s, a);
    RemovedFree(Removed(s, a), b);
    assert Removed(Removed(s, a), b) == Slab(s.slots[a := Vacant][b := Vacant], s.free + [a] + [b]);
    assert (s.free + [a] + [b])[..|s.free| + 1] == s.free + [a];
    assert (s.free + [a])[..|s.free|] == s.free;
  }

  class Registry<T> {
    var slots: seq<Slot<T>>
    var free: seq<nat>

    function View(): Slab<T>
      reads this
    {
      Slab(slots, free)
    }

    ghost predicate Valid()
      reads this
    {
      FreeIsVacant(View())
    }

    constructor ()
      ensures Valid() && View() == Slab([], [])
    {
      slots, free := [], [];
    }

    method Insert(value: T) returns (id: nat)
      requires Valid()
      modifies this
      ensures Valid() && View() == Inserted(old(View()), value)
      ensures id == NextIndex(old(View())) % IDS
    {
      InsertedFree(View(), value);
      var idx;
      if free != [] {
        idx := free[|free| - 1];
        free := free[..|free| - 1];
        slots := slots[idx := Filled(value)];
      } else {
        slots := slots + [Filled(value)];
        idx := |slots| - 1;
      }
      id := idx % IDS;
    }

    /** `replace` marks the slot Borrowed first, so anything but a Filled slot has to
        be put back. */
    method BorrowOut(id: nat) returns (value: Option<T>)
      requires Valid()
      modifies `slots
      ensures Valid() && View() == BorrowedOut(old(View()), id)
      ensures value == if Callable(old(View()), id) then Some(old(View()).slots[id].value) else None
    {
      if id >= |slots| {
        return None;
      }
      var was := slots[id];
      slots := slots[id := Borrowed];
      match was {
        case Filled(v) =>
          value := Some(v);
        case other =>
          slots := slots[id := other];
          value := None;
      }
    }

    /** What was borrowed out comes back, once; a slot that is not in use would be filled
        while on the free list. */
    method GiveBack(id: nat, value: T) returns (discarded: bool)
      requires Valid()
      modifies this
      ensures View() == GivenBack(old(View()), id, value)
      ensures Valid() <==> id >= |old(slots)| || old(slots)[id] != Vacant
      ensures discarded == Discards(old(View()), id)
    {
      if id >= |slots| {
        return true;
      }
      match slots[id] {
        case Dropped =>
          slots := slots[id := Vacant];
          free := free + [id];
          discarded := true;
        case _ =>
          slots := slots[id := Filled(value)];
          discarded := false;
      }
    }

    method Remove(id: nat)
      requires Valid()
      modifies this
      ensures Valid() && View() == Removed(old(View()), id)
    {
      if id >= |slots| {
        return;
      }
      match slots[id] {
        case Borrowed =>
          slots := slots[id := Dropped];
        case Filled(_) =>
          slots := slots[id := Vacant];
          free := free + [id];
        case _ =>
      }
    }
  }
}

/** A thread using one registry: closures are made, called from JavaScript by any id at
    any time, dropped or forgotten, and all of this may happen inside a running call. */
module ClosureCalls {
  import opened Wrappers
  import opened Machine
  import opened ClosureRegistry

  /** A closure is identified by the order it was made in. */
  datatype Frame = Frame(id: nat, closure: nat)

  /** What became of the `Closure` that owns it. */
  datatype Owner = Held | Forgotten | Gone

  datatype State = State(
    slab: Slab<nat>,
    stack: seq<Frame>,          // the trampolines running, innermost last
    depth: map<nat, nat>,       // where on the stack each running id is
    home: seq<nat>,             // the id each closure was given
    owner: seq<Owner>,
    destroyed: set<nat>)

  datatype Action =
    | Make                      // `Closure::new`
    | Forget(closure: nat)
    | DropOwner(closure: nat)   // `Drop for Closure`
    | Call(id: nat)             // JavaScript enters a trampoline
    | Return                    // the innermost trampoline finishes

  function Init(): State {
    State(Slab([], []), [], map[], [], [], {})
  }

  predicate Enabled(s: State, a: Action) {
    match a
    case Make => WellFormed(s.slab) && NextIndex(s.slab) < IDS
    case Forget(c) => c < |s.owner| && s.owner[c] == Held
    case DropOwner(c) => c < |s.owner| && s.owner[c] == Held && c < |s.home|
    case Call(_) => true
    case Return => s.stack != []
  }

  function DoMake(s: State): State
    requires WellFormed(s.slab)
  {
    s.(slab := Inserted(s.slab, |s.home|), home := s.home + [NextIndex(s.slab) % IDS], owner := s.owner + [Held])
  }

  function DoDrop(s: State, c: nat): State
    requires c < |s.owner| && c < |s.home|
  {
    var id := s.home[c];
    var gone := if Callable(s.slab, id) then {s.slab.slots[id].value} else {};
    s.(slab := Removed(s.slab, id), owner := s.owner[c := Gone], destroyed := s.destroyed + gone)
  }

  function DoCall(s: State, id: nat): State {
    if Callable(s.slab, id)
    then s.(slab := BorrowedOut(s.slab, id), stack := s.stack + [Frame(id, s.slab.slots[id].value)],
            depth := s.depth[id := |s.stack|])
    else s
  }

  function DoReturn(s: State): State
    requires s.stack != []
  {
    var top := s.stack[|s.stack| - 1];
    s.(slab := GivenBack(s.slab, top.id, top.closure), stack := s.stack[..|s.stack| - 1], depth := s.depth - {top.id},
       destroyed := if Discards(s.slab, top.id) then s.destroyed + {top.closure} else s.destroyed)
  }

  function Apply(s: State, a: Action): State
    requires Enabled(s, a)
  {
    match a
    case Make => DoMake(s)
    case Forget(c) => s.(owner := s.owner[c := Forgotten])
    case DropOwner(c) => DoDrop(s, c)
    case Call(id) => DoCall(s, id)
    case Return => DoReturn(s)
  }

  function Next(s: State, a: Action): Option<State> {
    if Enabled(s, a) then Some(Apply(s, a)) else None
  }

  function Perform(run: seq<Action>): Option<State> {
    From(Init(), Next, run)
  }

  // ---- what every run keeps ----

  ghost predicate StackIsIndexed(stack: seq<Frame>, depth: map<nat, nat>) {
    && (forall id :: id in depth ==> depth[id] < |stack| && stack[depth[id]].id == id)
    && (forall k :: 0 <= k < |stack| ==> stack[k].id in depth && depth[stack[k].id] == k)
  }

  ghost predicate StackIsInUse(slots: seq<Slot<nat>>, depth: map<nat, nat>) {
    && (forall id :: id in depth ==> id < |slots|)
    && (forall id :: 0 <= id < |slots| ==> (InUse(slots[id]) <==> id in depth))
  }

  /** Closure `c` is running under `id`. */
  ghost predicate Runs(stack: seq<Frame>, depth: map<nat, nat>, id: nat, c: nat) {
    id in depth && depth[id] < |stack| && stack[depth[id]].closure == c
  }

  /** Where closure `c`, given `id`, is, according to what became of its owner. */
  ghost predicate Placed(slots: seq<Slot<nat>>, stack: seq<Frame>, depth: map<nat, nat>, destroyed: set<nat>,
                         owner: Owner, id: nat, c: nat) {
    id < |slots| &&
    if owner != Gone then
      c !in destroyed && (slots[id] == Filled(c) || (slots[id] == Borrowed && Runs(stack, depth, id, c)))
    else
      c in destroyed || (slots[id] == Dropped && Runs(stack, depth, id, c))
  }

  ghost predicate AllPlaced(s: State) {
    |s.home| == |s.owner| &&
    forall c :: 0 <= c < |s.home| ==>
      Placed(s.slab.slots, s.stack, s.depth, s.destroyed, s.owner[c], s.home[c], c)
  }

  ghost predicate SlotsAreHome(slots: seq<Slot<nat>>, home: seq<nat>, owner: seq<Owner>) {
    forall id :: 0 <= id < |slots| && slots[id].Filled? ==>
      var c := slots[id].value; c < |home| && c < |owner| && home[c] == id && owner[c] != Gone
  }

  ghost predicate FramesAreHome(s: State) {
    forall k :: 0 <= k < |s.stack| ==>
      var f := s.stack[k];
      f.closure < |s.home| && s.home[f.closure] == f.id && f.closure !in s.destroyed
  }

  ghost predicate DestroyedAreGone(destroyed: set<nat>, owner: seq<Owner>) {
    forall c :: c in destroyed ==> c < |owner| && owner[c] == Gone
  }

  ghost predicate Inv(s: State) {
    && |s.slab.slots| <= IDS
    && FreeIsVacant(s.slab)
    && StackIsIndexed(s.stack, s.depth)
    && StackIsInUse(s.slab.slots, s.depth)
    && AllPlaced(s)
    && SlotsAreHome(s.slab.slots, s.home, s.owner)
    && FramesAreHome(s)
    && DestroyedAreGone(s.destroyed, s.owner)
  }

  lemma MakePlaced(s: State)
    requires Inv(s) && Enabled(s, Make)
    ensures AllPlaced(DoMake(s))
  {
    InsertedFree(s.slab, |s.home|);
    var t := DoMake(s);
    forall c | 0 <= c < |t.home|
      ensures Placed(t.slab.slots, t.stack, t.depth, t.destroyed, t.owner[c], t.home[c], c)
    {
      if c < |s.home| {
        assert Placed(s.slab.slots, s.stack, s.depth, s.destroyed, s.owner[c], s.home[c], c);
      }
    }
  }

  lemma MakeKept(s: State)
    requires Inv(s) && Enabled(s, Make)
    ensures Inv(DoMake(s))
  {
    hide AllPlaced, Placed, FreeIsVacant;
    InsertedFree(s.slab, |s.home|);
    MakePlaced(s);
  }

  lemma DropPlaced(s: State, c: nat)
    requires Inv(s) && Enabled(s, DropOwner(c))
    ensures AllPlaced(DoDrop(s, c))
  {
    var t := DoDrop(s, c);
    assert Placed(s.slab.slots, s.stack, s.depth, s.destroyed, s.owner[c], s.home[c], c);
    forall d | 0 <= d < |t.home|
      ensures Placed(t.slab.slots, t.stack, t.depth, t.destroyed, t.owner[d], t.home[d], d)
    {
      assert Placed(s.slab.slots, s.stack, s.depth, s.destroyed, s.owner[d], s.home[d], d);
    }
  }

  lemma DropKept(s: State, c: nat)
    requires Inv(s) && Enabled(s, DropOwner(c))
    ensures Inv(DoDrop(s, c))
  {
    hide FreeIsVacant;
    RemovedFree(s.slab, s.home[c]);
    DropPlaced(s, c);
    assert Placed(s.slab.slots, s.stack, s.depth, s.destroyed, s.owner[c], s.home[c], c);
  }

  lemma CallPlaced(s: State, id: nat)
    requires Inv(s)
    ensures AllPlaced(DoCall(s, id))
  {
    hide FreeIsVacant;
    var t := DoCall(s, id);
    forall c | 0 <= c < |t.home|
      ensures Placed(t.slab.slots, t.stack, t.depth, t.destroyed, t.owner[c], t.home[c], c)
    {
      assert Placed(s.slab.slots, s.stack, s.depth, s.destroyed, s.owner[c], s.home[c], c);
    }
  }

  lemma CallKept(s: State, id: nat)
    requires Inv(s)
    ensures Inv(DoCall(s, id))
  {
    CallPlaced(s, id);
    hide AllPlaced, Placed;
  }

  lemma ReturnPlaced(s: State)
    requires Inv(s) && s.stack != []
    ensures AllPlaced(DoReturn(s))
  {
    var top := s.stack[|s.stack| - 1];
    var t := DoReturn(s);
    assert Placed(s.slab.slots, s.stack, s.depth, s.destroyed, s.owner[top.closure], top.id, top.closure);
    forall c | 0 <= c < |t.home|
      ensures Placed(t.slab.slots, t.stack, t.depth, t.destroyed, t.owner[c], t.home[c], c)
    {
      assert Placed(s.slab.slots, s.stack, s.depth, s.destroyed, s.owner[c], s.home[c], c);
    }
  }

  lemma ReturnStack(s: State)
    requires Inv(s) && s.stack != []
    ensures var t := DoReturn(s);
      StackIsIndexed(t.stack, t.depth) && StackIsInUse(t.slab.slots, t.depth)
  {
    hide AllPlaced, SlotsAreHome, FramesAreHome, DestroyedAreGone, FreeIsVacant;
  }

  lemma ReturnHome(s: State)
    requires Inv(s) && s.stack != []
    ensures var t := DoReturn(s);
      SlotsAreHome(t.slab.slots, t.home, t.owner) && FramesAreHome(t) && DestroyedAreGone(t.destroyed, t.owner)
  {
    var top := s.stack[|s.stack| - 1];
    assert Placed(s.slab.slots, s.stack, s.depth, s.destroyed, s.owner[top.closure], top.id, top.closure);
  }

  lemma ReturnKept(s: State)
    requires Inv(s) && s.stack != []
    ensures Inv(DoReturn(s))
  {
    var top := s.stack[|s.stack| - 1];
    GivenBackFree(s.slab, top.id, top.closure);
    hide AllPlaced, FreeIsVacant;
    ReturnPlaced(s);
    ReturnStack(s);
    ReturnHome(s);
  }

  lemma StepKeepsInv(s: State, a: Action)
    requires Inv(s) && Enabled(s, a)
    ensures Inv(Apply(s, a))
  {
    match a
    case Make => MakeKept(s);
    case DropOwner(c) => DropKept(s, c);
    case Call(id) => CallKept(s, id);
    case Return => ReturnKept(s);
    case Forget(c) =>
  }

  lemma {:induction false} RunKeepsInv(run: seq<Action>)
    ensures var r := Perform(run); r.Some? ==> Inv(r.value)
  {
    if run != [] && Perform(run).Some? {
      RunKeepsInv(run[..|run| - 1]);
      StepKeepsInv(Perform(run[..|run| - 1]).value, run[|run| - 1]);
    }
  }

  // ---- the promises ----

  /** The free list has no duplicates and lists exactly the vacant slots; the slots
      borrowed or dropped mid-call are exactly the ids on the stack, each there once;
      and so the next insert, which never fails, takes an id that is not on the stack. */
  lemma SlabAndStackAgree(run: seq<Action>, id: nat)
    requires Perform(run).Some?
    ensures var s := Perform(run).value;
      && (forall i, j :: 0 <= i < j < |s.slab.free| ==> s.slab.free[i] != s.slab.free[j])
      && (id in s.slab.free <==> id < |s.slab.slots| && s.slab.slots[id] == Vacant)
      && ((exists k :: 0 <= k < |s.stack| && s.stack[k].id == id) <==> id < |s.slab.slots| && InUse(s.slab.slots[id]))
      && (forall i, j :: 0 <= i < j < |s.stack| ==> s.stack[i].id != s.stack[j].id)
      && WellFormed(s.slab)
      && (forall k :: 0 <= k < |s.stack| ==> s.stack[k].id != NextIndex(s.slab))
  {
    RunKeepsInv(run);
    var s := Perform(run).value;
    if id < |s.slab.slots| && InUse(s.slab.slots[id]) {
      assert s.stack[s.depth[id]].id == id;
    }
    if k :| 0 <= k < |s.stack| && s.stack[k].id == id {
      assert s.stack[k].id in s.depth;
    }
    InsertedFree(s.slab, 0);
  }

  /** Every closure ever made is in its slot, running, or destroyed: exactly one of
      these, in one slot or one frame, and always under the id it was given. */
  lemma EveryClosureIsInOnePlace(run: seq<Action>, c: nat)
    requires Perform(run).Some? && c < |Perform(run).value.home|
    ensures var s := Perform(run).value; var home := s.home[c];
      && home < |s.slab.slots|
      && ((s.slab.slots[home] == Filled(c) && !Runs(s.stack, s.depth, home, c) && c !in s.destroyed)
          || (s.slab.slots[home] != Filled(c) && Runs(s.stack, s.depth, home, c) && c !in s.destroyed)
          || (s.slab.slots[home] != Filled(c) && !Runs(s.stack, s.depth, home, c) && c in s.destroyed))
      && (forall id :: 0 <= id < |s.slab.slots| && s.slab.slots[id] == Filled(c) ==> id == home)
      && (forall k :: 0 <= k < |s.stack| && s.stack[k].closure == c ==> s.stack[k].id == home && home in s.depth && k == s.depth[home])
  {
    RunKeepsInv(run);
    var s := Perform(run).value;
    assert Placed(s.slab.slots, s.stack, s.depth, s.destroyed, s.owner[c], s.home[c], c);
  }

  /** A call runs a closure only if its owner has not been dropped, and only under
      that closure's own id; so dropping a closure makes it uncallable for good. */
  lemma ACallRunsOnlyTheUndropped(run: seq<Action>, id: nat)
    requires Perform(run).Some? && Callable(Perform(run).value.slab, id)
    ensures var s := Perform(run).value; var c := s.slab.slots[id].value;
      c < |s.owner| && s.owner[c] != Gone && c < |s.home| && s.home[c] == id
  {
    RunKeepsInv(run);
  }

  lemma OnceGoneAlwaysGone(run: seq<Action>, a: Action, c: nat)
    requires Perform(run).Some? && Enabled(Perform(run).value, a)
    requires c < |Perform(run).value.owner| && Perform(run).value.owner[c] == Gone
    ensures var t := Apply(Perform(run).value, a);
      c < |t.owner| && t.owner[c] == Gone && (c in Perform(run).value.destroyed ==> c in t.destroyed)
      && forall id :: 0 <= id < |t.slab.slots| ==> t.slab.slots[id] != Filled(c)
  {
    RunKeepsInv(run);
    StepKeepsInv(Perform(run).value, a);
  }

  /** While its owner is held or was forgotten, a closure stays callable by its id
      unless it is itself running, in which case the inner call does nothing. */
  lemma TheUndroppedStaysCallable(run: seq<Action>, c: nat)
    requires Perform(run).Some? && c < |Perform(run).value.owner| && Perform(run).value.owner[c] != Gone
    ensures var s := Perform(run).value;
      && c < |s.home| && s.home[c] < |s.slab.slots|
      && (s.slab.slots[s.home[c]] == Filled(c) || (Runs(s.stack, s.depth, s.home[c], c) && DoCall(s, s.home[c]) == s))
  {
    RunKeepsInv(run);
    var s := Perform(run).value;
    assert Placed(s.slab.slots, s.stack, s.depth, s.destroyed, s.owner[c], s.home[c], c);
  }

  /** A closure dropped while running is destroyed by that call's return, not before. */
  lemma DroppedMidCallLivesUntilReturn(run: seq<Action>)
    requires Perform(run).Some? && Perform(run).value.stack != []
    ensures var s := Perform(run).value; var top := s.stack[|s.stack| - 1]; var t := DoReturn(s);
      && top.closure < |s.owner| && top.closure !in s.destroyed && top.id < |t.slab.slots|
      && (s.owner[top.closure] == Gone ==> top.closure in t.destroyed && t.slab.slots[top.id] == Vacant)
      && (s.owner[top.closure] != Gone ==> t.destroyed == s.destroyed && t.slab.slots[top.id] == Filled(top.closure))
  {
    RunKeepsInv(run);
    var s := Perform(run).value;
    var top := s.stack[|s.stack| - 1];
    assert Placed(s.slab.slots, s.stack, s.depth, s.destroyed, s.owner[top.closure], top.id, top.closure);
  }

  /** A call through the id of a dropped closure does nothing exactly as long as no other
      closure, undropped and not running, has been given that id. */
  lemma AStaleIdIsNoOpExactly(run: seq<Action>, c: nat)
    requires Perform(run).Some? && c < |Perform(run).value.owner| && Perform(run).value.owner[c] == Gone
    ensures var s := Perform(run).value;
      && c < |s.home|
      && (DoCall(s, s.home[c]) == s <==>
            !exists d :: 0 <= d < |s.home| && d < |s.owner| && s.owner[d] != Gone && s.home[d] == s.home[c] &&
                         !Runs(s.stack, s.depth, s.home[d], d))
  {
    RunKeepsInv(run);
    var s := Perform(run).value;
    var id := s.home[c];
    assert Placed(s.slab.slots, s.stack, s.depth, s.destroyed, s.owner[c], id, c);
    if Callable(s.slab, id) {
      var d := s.slab.slots[id].value;
      assert |DoCall(s, id).stack| == |s.stack| + 1;
      assert Placed(s.slab.slots, s.stack, s.depth, s.destroyed, s.owner[d], s.home[d], d);
    }
    forall d | 0 <= d < |s.home| && s.owner[d] != Gone && s.home[d] == id && !Runs(s.stack, s.depth, id, d)
      ensures Callable(s.slab, id)
    {
      assert Placed(s.slab.slots, s.stack, s.depth, s.destroyed, s.owner[d], s.home[d], d);
    }
  }

  /** Ids are reused: a call through the id of a dropped closure does nothing only
      until the slot is refilled, and then it runs the newcomer. */
  lemma AStaleIdCanRunANewcomer() returns (run: seq<Action>)
    ensures Perform(run).Some?
    ensures var s := Perform(run).value;
      && |s.home| == 2 && s.home[0] == s.home[1] == 0
      && s.owner == [Gone, Held]
      && s.stack == [Frame(0, 1)]
  {
    run := [];
    var s := Init();
    assert Perform(run) == Some(s);
    hide Perform;
    run, s := OneMore(Init(), Next, run, s, Make);
    assert s == State(Slab([Filled(0)], []), [], map[], [0], [Held], {});
    run, s := OneMore(Init(), Next, run, s, DropOwner(0));
    assert s == State(Slab([Vacant], [0]), [], map[], [0], [Gone], {0});
    run, s := OneMore(Init(), Next, run, s, Make);
    assert s == State(Slab([Filled(1)], []), [], map[], [0, 0], [Gone, Held], {0});
    run, s := OneMore(Init(), Next, run, s, Call(0));
  }
}
