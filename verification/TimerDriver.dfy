/** The native timer driver of `sleep.rs`: any number of threads arming and dropping
    timers, and the one driver thread running `run`, interleaved. */
module TimerDriver {
  import opened Wrappers
  import opened Machine
  import opened TimerQueue

  /** A thread inside `Driver::arm`: it has its id, then its deadline, then inserts. */
  datatype Arming = HasId(id: nat, dur: nat, wake: nat) | HasDeadline(id: nat, deadline: int, wake: nat)

  datatype Driver =
    | Ready                                  // about to take the lock and do a round
    | AboutToWait(read: int, deadline: int)  // lock held, `now` was read as `read`
    | Asleep                                 // in `changed.wait`
    | AsleepUntil(read: int, deadline: int, began: int)   // in `changed.wait_timeout(deadline - read)`
    | Waking(id: nat, wake: nat)             // lock dropped, before `wake.wake()`

  /** When the timed wait that began at `began` runs out. */
  function End(d: Driver): int
    requires d.AsleepUntil?
  {
    d.began + (d.deadline - d.read)
  }

  /** One `arm` that reached the queue. */
  datatype Armed = Armed(wake: nat, deadline: int)

  datatype State = State(
    clock: int,
    nextId: nat,
    arming: map<nat, Arming>,       // by thread
    heap: seq<Entry>,
    pending: map<nat, nat>,         // id to wake
    driver: Driver,
    notifying: nat,                 // cancels that removed a timer and have yet to notify
    // what has happened
    armed: map<nat, Armed>,
    fired: map<nat, int>,           // id to the time `run` removed it
    canceled: set<nat>,             // ids `cancel` removed
    woken: seq<nat>)                // ids whose wake was called, in order

  datatype Action =
    | Tick(elapsed: nat)
    | TakeId(thread: nat, dur: nat, wake: nat)
    | ReadDeadline(thread: nat)
    | Insert(thread: nat)            // under the lock: insert, push, notify
    | Remove(id: nat)                // under the lock: the removal in `cancel`
    | NotifyCancel
    | Round                          // under the lock: one round of `run`
    | BeginWait
    | EndWait                        // notified, timed out or spurious: relock
    | CallWake

  function Init(): State {
    State(0, 1, map[], [], map[], Ready, 0, map[], map[], {}, [])
  }

  /** The driver holds the queue lock between the steps of a round. */
  predicate LockFree(s: State) {
    !s.driver.AboutToWait?
  }

  predicate Enabled(s: State, a: Action) {
    match a
    case Tick(_) => true
    case TakeId(thread, _, _) => thread !in s.arming
    case ReadDeadline(thread) => thread in s.arming && s.arming[thread].HasId?
    case Insert(thread) => thread in s.arming && s.arming[thread].HasDeadline? && LockFree(s)
    case Remove(_) => LockFree(s)
    case NotifyCancel => s.notifying > 0
    case Round => s.driver == Ready
    case BeginWait => s.driver.AboutToWait?
    case EndWait => s.driver == Asleep || s.driver.AsleepUntil?
    case CallWake => s.driver.Waking?
  }

  /** `changed.notify_one`: a sleeping driver will go round again. */
  function Notify(d: Driver): Driver {
    if d == Asleep || d.AsleepUntil? then Ready else d
  }

  function DoRound(s: State): State {
    var v := Decide(s.heap, s.pending, s.clock);
    var t := s.(heap := HeapAfter(s.heap, s.pending, s.clock), pending := PendingAfter(s.heap, s.pending, s.clock));
    match v
    case WaitForever => t.(driver := Asleep)
    case WaitUntil(deadline) => t.(driver := AboutToWait(s.clock, deadline))
    case Fire(id, wake) => t.(driver := Waking(id, wake), fired := s.fired[id := s.clock])
  }

  function Apply(s: State, a: Action): State
    requires Enabled(s, a)
  {
    match a
    case Tick(elapsed) => s.(clock := s.clock + elapsed)
    case TakeId(thread, dur, wake) =>
      s.(nextId := s.nextId + 1, arming := s.arming[thread := HasId(s.nextId, dur, wake)])
    case ReadDeadline(thread) =>
      var m := s.arming[thread];
      s.(arming := s.arming[thread := HasDeadline(m.id, s.clock + m.dur, m.wake)])
    case Insert(thread) =>
      var m := s.arming[thread];
      s.(arming := s.arming - {thread},
         pending := s.pending[m.id := m.wake],
         heap := HeapPush(s.heap, Entry(m.deadline, m.id)),
         driver := Notify(s.driver),
         armed := s.armed[m.id := Armed(m.wake, m.deadline)])
    case Remove(id) =>
      if id in s.pending then
        s.(pending := s.pending - {id}, notifying := s.notifying + 1, canceled := s.canceled + {id})
      else s
    case NotifyCancel => s.(notifying := s.notifying - 1, driver := Notify(s.driver))
    case Round => DoRound(s)
    case BeginWait => s.(driver := AsleepUntil(s.driver.read, s.driver.deadline, s.clock))
    case EndWait => s.(driver := Ready)
    case CallWake => s.(driver := Ready, woken := s.woken + [s.driver.id])
  }

  function Next(s: State, a: Action): Option<State> {
    if Enabled(s, a) then Some(Apply(s, a)) else None
  }

  function Perform(run: seq<Action>): Option<State> {
    From(Init(), Next, run)
  }

  // ---- what every interleaving keeps ----

  function DeadlineOf(armed: map<nat, Armed>): map<nat, int> {
    map id | id in armed :: armed[id].deadline
  }

  /** Ids are handed out once. */
  ghost predicate FreshIds(nextId: nat, arming: map<nat, Arming>, armed: map<nat, Armed>) {
    && (forall id :: id in armed ==> id < nextId)
    && (forall t :: t in arming ==> arming[t].id < nextId && arming[t].id !in armed)
    && (forall t, u :: t in arming && u in arming && t != u ==> arming[t].id != arming[u].id)
  }

  /** Every timer that reached the queue is in exactly one of three places. */
  ghost predicate OnePlace(pending: map<nat, nat>, armed: map<nat, Armed>, fired: map<nat, int>, canceled: set<nat>) {
    && armed.Keys == pending.Keys + fired.Keys + canceled
    && pending.Keys !! fired.Keys !! canceled
    && (forall id :: id in pending ==> pending[id] == armed[id].wake)
    && (forall id :: id in fired && id in armed ==> armed[id].deadline <= fired[id])
  }

  ghost predicate WokenAreFired(driver: Driver, armed: map<nat, Armed>, fired: map<nat, int>, woken: seq<nat>) {
    && (forall i :: 0 <= i < |woken| ==> woken[i] in fired)
    && (forall i, j :: 0 <= i < j < |woken| ==> woken[i] != woken[j])
    && (driver.Waking? ==>
          && driver.id in fired && driver.id in armed && driver.wake == armed[driver.id].wake
          && driver.id !in woken)
    && (forall id :: id in fired ==> id in woken || (driver.Waking? && driver.id == id))
  }

  ghost predicate SleepsSafely(s: State) {
    match s.driver
    case Asleep => s.pending == map[]
    case AboutToWait(read, deadline) =>
      read <= s.clock && read < deadline &&
      forall id :: id in s.pending && id in s.armed ==> deadline <= s.armed[id].deadline
    case AsleepUntil(read, deadline, began) =>
      read <= began <= s.clock && read < deadline &&
      forall id :: id in s.pending && id in s.armed ==> deadline <= s.armed[id].deadline
    case _ => true
  }

  /** The timer whose deadline the driver is about to wait for is still pending: it holds
      the lock since it looked. */
  ghost predicate AwaitsOne(driver: Driver, pending: map<nat, nat>, armed: map<nat, Armed>) {
    driver.AboutToWait? ==> exists id :: id in pending && id in armed && armed[id].deadline == driver.deadline
  }

  ghost predicate Inv(s: State) {
    && FreshIds(s.nextId, s.arming, s.armed)
    && Agrees(s.heap, s.pending, DeadlineOf(s.armed))
    && OnePlace(s.pending, s.armed, s.fired, s.canceled)
    && WokenAreFired(s.driver, s.armed, s.fired, s.woken)
    && SleepsSafely(s)
    && AwaitsOne(s.driver, s.pending, s.armed)
  }

  lemma DeadlineOfHas(armed: map<nat, Armed>)
    ensures DeadlineOf(armed).Keys == armed.Keys
    ensures forall id :: id in armed ==> DeadlineOf(armed)[id] == armed[id].deadline
  {
  }

  lemma InsertAgrees(s: State, m: Arming)
    requires Inv(s) && m.HasDeadline? && m.id !in s.armed
    ensures Agrees(HeapPush(s.heap, Entry(m.deadline, m.id)), s.pending[m.id := m.wake], DeadlineOf(s.armed[m.id := Armed(m.wake, m.deadline)]))
  {
    ArmAgrees(s.heap, s.pending, DeadlineOf(s.armed), m.id, m.deadline, m.wake);
    hide Agrees, Inv;
    assert DeadlineOf(s.armed[m.id := Armed(m.wake, m.deadline)]) == DeadlineOf(s.armed)[m.id := m.deadline];
  }

  lemma InsertPlaces(s: State, t: nat)
    requires Inv(s) && Enabled(s, Insert(t))
    ensures var u := Apply(s, Insert(t));
      OnePlace(u.pending, u.armed, u.fired, u.canceled) && WokenAreFired(u.driver, u.armed, u.fired, u.woken)
  {
    hide Agrees, HeapPush, DeadlineOf, SleepsSafely;
  }

  lemma InsertKept(s: State, t: nat)
    requires Inv(s) && Enabled(s, Insert(t))
    ensures Inv(Apply(s, Insert(t)))
  {
    hide Agrees, HeapPush, DeadlineOf;
    InsertAgrees(s, s.arming[t]);
    InsertPlaces(s, t);
    hide OnePlace, WokenAreFired;
  }

  lemma RemoveKept(s: State, id: nat)
    requires Inv(s) && LockFree(s)
    ensures Inv(Apply(s, Remove(id)))
  {
    hide FreshIds, WokenAreFired, DeadlineOf;
  }

  lemma FirePlaces(s: State, id: nat, wake: nat)
    requires OnePlace(s.pending, s.armed, s.fired, s.canceled)
    requires s.driver == Ready && WokenAreFired(Ready, s.armed, s.fired, s.woken)
    requires id in s.pending && s.pending[id] == wake && id in s.armed && s.armed[id].deadline <= s.clock
    ensures OnePlace(s.pending - {id}, s.armed, s.fired[id := s.clock], s.canceled)
    ensures WokenAreFired(Waking(id, wake), s.armed, s.fired[id := s.clock], s.woken)
  {
    assert s.fired[id := s.clock].Keys == s.fired.Keys + {id};
  }

  lemma RoundPlaces(s: State)
    requires Inv(s) && s.driver == Ready
    ensures var u := DoRound(s); OnePlace(u.pending, u.armed, u.fired, u.canceled) && WokenAreFired(u.driver, u.armed, u.fired, u.woken)
  {
    DecideIsEarliest(s.heap, s.pending, DeadlineOf(s.armed), s.clock);
    DeadlineOfHas(s.armed);
    hide Agrees, FreshIds, HeapAfter, Decide, DeadlineOf;
    var v := Decide(s.heap, s.pending, s.clock);
    if v.Fire? {
      assert v.id in s.armed;
      FirePlaces(s, v.id, v.wake);
      hide OnePlace, WokenAreFired;
    }
  }

  lemma RoundWaits(s: State)
    requires Inv(s) && s.driver == Ready
    ensures var u := DoRound(s); SleepsSafely(u) && AwaitsOne(u.driver, u.pending, u.armed)
  {
    DecideIsEarliest(s.heap, s.pending, DeadlineOf(s.armed), s.clock);
    DeadlineOfHas(s.armed);
    hide Agrees, FreshIds, WokenAreFired, HeapAfter, Decide, DeadlineOf;
  }

  lemma RoundKept(s: State)
    requires Inv(s) && s.driver == Ready
    ensures Inv(DoRound(s))
  {
    hide Agrees, FreshIds, OnePlace, WokenAreFired, SleepsSafely, AwaitsOne, HeapAfter, PendingAfter, Decide, DeadlineOf;
    RoundAgrees(s.heap, s.pending, DeadlineOf(s.armed), s.clock);
    RoundPlaces(s);
    RoundWaits(s);
  }

  /** Drawing an id and reading the clock touch only the arming thread. */
  lemma ArmingKept(s: State, a: Action)
    requires Inv(s) && Enabled(s, a) && (a.TakeId? || a.ReadDeadline?)
    ensures Inv(Apply(s, a))
  {
    hide Agrees, OnePlace, WokenAreFired, DeadlineOf;
  }

  lemma DriverKept(s: State, a: Action)
    requires Inv(s) && Enabled(s, a)
    requires a.Tick? || a == NotifyCancel || a == BeginWait || a == EndWait || a == CallWake
    ensures Inv(Apply(s, a))
  {
    hide Agrees, FreshIds, OnePlace, DeadlineOf;
  }

  lemma StepKeepsInv(s: State, a: Action)
    requires Inv(s) && Enabled(s, a)
    ensures Inv(Apply(s, a))
  {
    hide Inv;
    match a
    case Insert(t) => InsertKept(s, t);
    case Round => RoundKept(s);
    case Remove(id) => RemoveKept(s, id);
    case TakeId(_, _, _) => ArmingKept(s, a);
    case ReadDeadline(_) => ArmingKept(s, a);
    case _ => DriverKept(s, a);
  }

  lemma {:induction false} RunKeepsInv(run: seq<Action>)
    ensures var r := Perform(run); r.Some? ==> Inv(r.value)
  {
    if run != [] && Perform(run).Some? {
      RunKeepsInv(run[..|run| - 1]);
      StepKeepsInv(Perform(run[..|run| - 1]).value, run[|run| - 1]);
    }
  }

  // ---- the promises ----

  /** Whenever the driver waits un-notified: an untimed wait means no timer is
      pending, and a timed wait runs out, for each pending timer, no later than that
      timer's deadline plus the time the driver itself took between reading the clock
      and starting to wait. It is due exactly then for the earliest one. */
  lemma NeverOversleeps(run: seq<Action>)
    requires Perform(run).Some?
    ensures var s := Perform(run).value;
      && (s.driver == Asleep ==> s.pending == map[])
      && (s.driver.AsleepUntil? ==>
            && s.driver.read <= s.driver.began
            && forall id :: id in s.pending ==>
                 id in s.armed && End(s.driver) <= s.armed[id].deadline + (s.driver.began - s.driver.read))
  {
    RunKeepsInv(run);
  }

  /** Exactly when a timed wait oversleeps: it will end by the deadline of every timer
      pending when it begins if and only if it begins at the very time the clock was read.
      With any delay there is a pending timer it outlasts, for that timer's deadline is the
      one it waits for. */
  lemma OversleepsOnlyByTheGap(run: seq<Action>)
    requires Perform(run).Some? && Perform(run).value.driver.AboutToWait?
    ensures var s := Perform(run).value; var t := Apply(s, BeginWait);
      (forall id :: id in t.pending ==> id in t.armed && End(t.driver) <= t.armed[id].deadline) <==>
        s.clock == s.driver.read
  {
    RunKeepsInv(run);
    hide Perform, Agrees, FreshIds, WokenAreFired;
    var s := Perform(run).value;
    var t := Apply(s, BeginWait);
    var id :| id in s.pending && id in s.armed && s.armed[id].deadline == s.driver.deadline;
    assert End(t.driver) == s.driver.deadline + (s.clock - s.driver.read);
    assert id in t.pending && t.armed[id].deadline == s.driver.deadline;
  }

  /** It does happen: armed for five, the driver reads the clock, one passes before it
      waits, and it waits for five. */
  lemma ADelayOversleeps() returns (run: seq<Action>)
    ensures Perform(run).Some?
    ensures var s := Perform(run).value;
      s.driver.AsleepUntil? && 1 in s.pending && 1 in s.armed && End(s.driver) > s.armed[1].deadline
  {
    run := [];
    var s := Init();
    assert Perform(run) == Some(s);
    hide Perform;
    run, s := OneMore(Init(), Next, run, s, TakeId(0, 5, 7));
    run, s := OneMore(Init(), Next, run, s, ReadDeadline(0));
    assert s == Init().(nextId := 2, arming := map[0 := HasDeadline(1, 5, 7)]);
    run, s := OneMore(Init(), Next, run, s, Insert(0));
    assert s == Init().(nextId := 2, heap := [Entry(5, 1)], pending := map[1 := 7], armed := map[1 := Armed(7, 5)]);
    run, s := OneMore(Init(), Next, run, s, Round);
    assert s.driver == AboutToWait(0, 5) && s.pending == map[1 := 7];
    run, s := OneMore(Init(), Next, run, s, Tick(1));
    run, s := OneMore(Init(), Next, run, s, BeginWait);
  }

  /** Every timer that reached the queue is pending, fired or cancelled, and only one
      of these; the pending ones have exactly one heap entry each. */
  lemma EachTimerIsInOnePlace(run: seq<Action>, id: nat)
    requires Perform(run).Some? && id in Perform(run).value.armed
    ensures var s := Perform(run).value;
      && (id in s.pending || id in s.fired || id in s.canceled)
      && !(id in s.pending && id in s.fired) && !(id in s.pending && id in s.canceled) && !(id in s.fired && id in s.canceled)
      && (id in s.pending ==>
            exists i :: 0 <= i < |s.heap| && s.heap[i] == Entry(s.armed[id].deadline, id) &&
              forall j :: 0 <= j < |s.heap| && s.heap[j].id == id ==> j == i)
  {
    RunKeepsInv(run);
    var s := Perform(run).value;
    if id in s.pending {
      assert Entry(s.armed[id].deadline, id) in s.heap;
      var i :| 0 <= i < |s.heap| && s.heap[i] == Entry(s.armed[id].deadline, id);
    }
  }

  /** A timer leaves `pending` once and never comes back, its deadline never changes;
      its cancellation takes it out, and a step that does is that or a round at or after its
      deadline. */
  lemma LeavesOnceAndOnTime(run: seq<Action>, a: Action, id: nat)
    requires Perform(run).Some? && Enabled(Perform(run).value, a) && id in Perform(run).value.armed
    ensures var s := Perform(run).value; var t := Apply(s, a);
      && id in t.armed && t.armed[id] == s.armed[id]
      && (id !in s.pending || a == Remove(id) ==> id !in t.pending)
      && (id in s.pending && id !in t.pending ==>
            (a == Remove(id) && id in t.canceled) ||
            (a == Round && s.armed[id].deadline <= s.clock && t.driver == Waking(id, s.armed[id].wake)))
  {
    RunKeepsInv(run);
    hide Perform, Agrees, WokenAreFired, HeapAfter, HeapPush;
    var s := Perform(run).value;
    StepKeepsInv(s, a);
    DecideIsEarliest(s.heap, s.pending, DeadlineOf(s.armed), s.clock);
  }

  /** Only fired timers are woken, each at most once, none before its deadline, and
      every fired timer has been woken or is about to be. */
  lemma WakesExactlyTheFired(run: seq<Action>)
    requires Perform(run).Some?
    ensures var s := Perform(run).value;
      && (forall i :: 0 <= i < |s.woken| ==>
            s.woken[i] in s.fired && s.woken[i] in s.armed && s.armed[s.woken[i]].deadline <= s.fired[s.woken[i]])
      && (forall i, j :: 0 <= i < j < |s.woken| ==> s.woken[i] != s.woken[j])
      && (forall id :: id in s.fired ==> id in s.woken || (s.driver.Waking? && s.driver.id == id))
      && (forall id :: id in s.canceled ==> id !in s.woken)
  {
    RunKeepsInv(run);
  }

  /** A round with some timer due does not sleep: it fires the earliest. */
  lemma ADueTimerFires(run: seq<Action>, id: nat)
    requires Perform(run).Some?
    requires var s := Perform(run).value; s.driver == Ready && id in s.pending && id in s.armed && s.armed[id].deadline <= s.clock
    ensures var s := Perform(run).value; var t := DoRound(s);
      t.driver.Waking? && t.driver.id in s.armed && s.armed[t.driver.id].deadline <= s.armed[id].deadline
  {
    RunKeepsInv(run);
    var s := Perform(run).value;
    DecideIsEarliest(s.heap, s.pending, DeadlineOf(s.armed), s.clock);
  }
}
