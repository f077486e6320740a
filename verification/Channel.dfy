/** The multi-producer, single-consumer channel of `wasm_lite_std::mpsc`, as a
    state machine whose actions are the single atomic steps of the code.

    Any number of threads send at once, each borrowing some `Sender` handle (one
    handle may be borrowed by several threads: `Sender` is `Sync`), while handles
    are cloned and dropped and the one receiver receives, waits, times out or is
    dropped. Every load, store, fetch_add, lock, unlock, condvar registration and
    notification is its own action, so an interleaving is a list of actions. */
module Channel {
  import opened Wrappers
  import opened Machine

  /** A queued value, labelled with the number of the `send_*` call that pushed it.
      The code never looks at the label. */
  datatype Msg<T> = Msg(ticket: nat, value: T)

  /** Where a `send_*` call is. */
  datatype SendPc =
    | FirstCheck      // before the first `receiver_active` load
    | WantLock        // the first load said active; acquiring the queue lock
    | SecondCheck     // lock held, before the second load
    | Push            // lock held, before `push_back`
    | Unlock          // pushed, lock held, before `drop(queue)`
    | Notify          // lock released, before `notify_one`
    | Refusing        // lock held, the second load said inactive: returning SendError

  /** A running call: it borrows `handle` until it returns. */
  datatype Send<T> = Send(handle: nat, msg: Msg<T>, pc: SendPc)

  /** The drop of the handle that took `sender_count` from one to zero. */
  datatype LastDrop = NotYet | DropWantLock | DropHolding | DropNotify | DropDone

  /** Which receive call is running: `try_recv`, an untimed `recv_*`, or a timed one. */
  datatype Mode = Try | Untimed | Timed

  /** What a receive call returned. Both timeouts are the same error to the caller;
      `inLock` tells which of the two waits ran out. */
  datatype Report<T> = Received(msg: Msg<T>) | Disconnected | Empty | Timeout(inLock: bool)

  datatype RecvPc<T> =
    | Idle
    | Locking(mode: Mode)             // acquiring the queue lock
    | Popping(mode: Mode)             // lock held, before `pop_front`
    | Missed(mode: Mode)              // nothing popped, before the `sender_count` load
    | Registering(mode: Mode)         // count was positive, before joining the condvar
    | Releasing(mode: Mode)           // joined, lock still held
    | Parked(mode: Mode)              // lock released, waiting
    | Relocking(mode: Mode, timedOut: bool)
    | Returning(report: Report<T>)    // lock held, the guard is about to drop
    | Leaving                         // dropped: flag cleared, before `notify_all`
    | Gone

  /** The condvar as its one possible waiter sees it. */
  datatype Waiter = Absent | Registered | Notified

  datatype Owner = Free | ByCaller(thread: nat) | ByDropper | ByReceiver

  datatype Shared<T> = Shared(queue: seq<Msg<T>>, lock: Owner, waiter: Waiter, receiverActive: bool)

  /** `live` are the handles that have not decremented `count`, the `sender_count`. */
  datatype Handles = Handles(live: set<nat>, next: nat, count: int, lastDrop: LastDrop)

  /** What became of one `send_*` call. */
  datatype Fate<T> =
    | Running
    | Pushed(index: nat)        // the index-th value ever pushed
    | Refused(value: T)         // came back inside SendError
    | Abandoned                 // its `send_async` future was dropped before it got the lock

  /** The history of one call: who called, with what, and what came of it. */
  datatype Call<T> = Call(from: nat, value: T, fate: Fate<T>)

  /** What has happened so far. Calls are numbered by their place in `calls`. */
  datatype Log<T> = Log(
    calls: seq<Call<T>>,
    pushed: seq<Msg<T>>,        // in push order
    received: seq<Msg<T>>,      // in the order the receiver popped them
    reports: seq<Report<T>>)    // what the receive calls returned, in order

  datatype State<T> = State(
    shared: Shared<T>,
    handles: Handles,
    sends: map<nat, Send<T>>,   // the call each sending thread is in
    recv: RecvPc<T>,
    log: Log<T>)

  datatype Action<T> =
    // sending
    | BeginSend(thread: nat, handle: nat, value: T)
    | StepSend(thread: nat)
    | AbandonSend(thread: nat)       // a `send_async` future waiting for the lock is dropped
    // handles
    | Clone(handle: nat)
    | Drop(handle: nat)
    | StepDrop
    // receiving
    | BeginRecv(mode: Mode)
    | StepRecv
    | LockTimeout                    // a timed lock acquisition gives up on a held lock
    | Wake(timedOut: bool)           // leave the condvar: notified, spurious, or timed out
    | Abandon                        // a waiting `recv_async` future is dropped
    | DropReceiver

  function Init<T>(): State<T> {
    State(Shared([], Free, Absent, true), Handles({0}, 1, 1, NotYet), map[], Idle, Log([], [], [], []))
  }

  // ---- sending ----

  predicate CanBeginSend<T>(s: State<T>, thread: nat, handle: nat) {
    thread !in s.sends && handle in s.handles.live
  }

  function DoBeginSend<T>(s: State<T>, thread: nat, handle: nat, value: T): State<T> {
    var msg := Msg(|s.log.calls|, value);
    s.(sends := s.sends[thread := Send(handle, msg, FirstCheck)],
       log := s.log.(calls := s.log.calls + [Call(thread, value, Running)]))
  }

  predicate CanStepSend<T>(s: State<T>, thread: nat) {
    thread in s.sends && (s.sends[thread].pc == WantLock ==> s.shared.lock == Free)
  }

  /** The log once call `ticket` has come to `fate`. */
  function Settle<T>(log: Log<T>, ticket: nat, fate: Fate<T>): Log<T> {
    if ticket < |log.calls| then log.(calls := log.calls[ticket := log.calls[ticket].(fate := fate)]) else log
  }

  function End<T>(s: State<T>, thread: nat, fate: Fate<T>): State<T>
    requires thread in s.sends
  {
    s.(sends := s.sends - {thread}, log := Settle(s.log, s.sends[thread].msg.ticket, fate))
  }

  function At<T>(s: State<T>, thread: nat, pc: SendPc): State<T>
    requires thread in s.sends
  {
    s.(sends := s.sends[thread := s.sends[thread].(pc := pc)])
  }

  function DoStepSend<T>(s: State<T>, thread: nat): State<T>
    requires CanStepSend(s, thread)
  {
    var msg := s.sends[thread].msg;
    match s.sends[thread].pc
    case FirstCheck => if s.shared.receiverActive then At(s, thread, WantLock) else End(s, thread, Refused(msg.value))
    case WantLock => At(s, thread, SecondCheck).(shared := s.shared.(lock := ByCaller(thread)))
    case SecondCheck => At(s, thread, if s.shared.receiverActive then Push else Refusing)
    case Push =>
      var log := Settle(s.log, msg.ticket, Pushed(|s.log.pushed|));
      At(s, thread, Unlock).(shared := s.shared.(queue := s.shared.queue + [msg]),
                             log := log.(pushed := log.pushed + [msg]))
    case Unlock => At(s, thread, Notify).(shared := s.shared.(lock := Free))
    case Notify => s.(sends := s.sends - {thread}, shared := NotifyWaiter(s.shared))
    case Refusing => End(s, thread, Refused(msg.value)).(shared := s.shared.(lock := Free))
  }

  /** `notify_one` and `notify_all` agree when at most one thread can wait. */
  function NotifyWaiter<T>(h: Shared<T>): Shared<T> {
    if h.waiter == Registered then h.(waiter := Notified) else h
  }

  // ---- handles ----

  function DoClone(h: Handles): Handles {
    h.(live := h.live + {h.next}, next := h.next + 1, count := h.count + 1)
  }

  /** A handle may be dropped only when no call borrows it. */
  predicate CanDrop<T>(s: State<T>, handle: nat) {
    handle in s.handles.live && forall t :: t in s.sends ==> s.sends[t].handle != handle
  }

  function DoDrop(h: Handles, handle: nat): Handles {
    h.(live := h.live - {handle}, count := h.count - 1,
       lastDrop := if h.count == 1 then DropWantLock else h.lastDrop)
  }

  predicate CanStepDrop<T>(s: State<T>) {
    s.handles.lastDrop == DropHolding || s.handles.lastDrop == DropNotify ||
    (s.handles.lastDrop == DropWantLock && s.shared.lock == Free)
  }

  function DoStepDrop<T>(s: State<T>): State<T>
    requires CanStepDrop(s)
  {
    match s.handles.lastDrop
    case DropWantLock =>
      s.(handles := s.handles.(lastDrop := DropHolding), shared := s.shared.(lock := ByDropper))
    case DropHolding =>
      s.(handles := s.handles.(lastDrop := DropNotify), shared := s.shared.(lock := Free))
    case _ => s.(handles := s.handles.(lastDrop := DropDone), shared := NotifyWaiter(s.shared))
  }

  // ---- receiving ----

  predicate CanStepRecv<T>(s: State<T>) {
    match s.recv
    case Locking(_) => s.shared.lock == Free
    case Relocking(_, _) => s.shared.lock == Free
    case Idle => false
    case Parked(_) => false
    case Gone => false
    case _ => true
  }

  function DoStepRecv<T>(s: State<T>): State<T>
    requires CanStepRecv(s)
  {
    match s.recv
    case Locking(mode) => s.(recv := Popping(mode), shared := s.shared.(lock := ByReceiver))
    case Popping(mode) =>
      var queue := s.shared.queue;
      if queue == [] then s.(recv := Missed(mode))
      else s.(recv := Returning(Received(queue[0])), shared := s.shared.(queue := queue[1..]),
              log := s.log.(received := s.log.received + [queue[0]]))
    case Missed(mode) =>
      if s.handles.count == 0 then s.(recv := Returning(Disconnected))
      else if mode == Try then s.(recv := Returning(Empty))
      else s.(recv := Registering(mode))
    case Registering(mode) => s.(recv := Releasing(mode), shared := s.shared.(waiter := Registered))
    case Releasing(mode) => s.(recv := Parked(mode), shared := s.shared.(lock := Free))
    case Relocking(mode, timedOut) =>
      s.(recv := if timedOut then Returning(Timeout(false)) else Popping(mode),
         shared := s.shared.(lock := ByReceiver))
    case Returning(report) =>
      s.(recv := Idle, shared := s.shared.(lock := Free), log := s.log.(reports := s.log.reports + [report]))
    case _ => s.(recv := Gone, shared := NotifyWaiter(s.shared))
  }

  /** Leaving the condvar. Untimed waits return when notified or spuriously (the
      park family allows it, and takes itself off the list); a timed wait may also
      time out, even when a notification raced with the deadline. */
  predicate CanWake<T>(s: State<T>, timedOut: bool) {
    s.recv.Parked? && (timedOut ==> s.recv.mode == Timed)
  }

  predicate Enabled<T>(s: State<T>, a: Action<T>) {
    match a
    case BeginSend(thread, handle, _) => CanBeginSend(s, thread, handle)
    case StepSend(thread) => CanStepSend(s, thread)
    case AbandonSend(thread) => thread in s.sends && s.sends[thread].pc == WantLock
    case Clone(handle) => handle in s.handles.live
    case Drop(handle) => CanDrop(s, handle)
    case StepDrop => CanStepDrop(s)
    case BeginRecv(_) => s.recv == Idle
    case StepRecv => CanStepRecv(s)
    case LockTimeout => s.recv == Locking(Timed) && s.shared.lock != Free
    case Wake(timedOut) => CanWake(s, timedOut)
    case Abandon => s.recv.Parked? || s.recv.Locking? || s.recv.Relocking?
    case DropReceiver => s.recv == Idle
  }

  function Apply<T>(s: State<T>, a: Action<T>): State<T>
    requires Enabled(s, a)
  {
    match a
    case BeginSend(thread, handle, value) => DoBeginSend(s, thread, handle, value)
    case StepSend(thread) => DoStepSend(s, thread)
    case AbandonSend(thread) => End(s, thread, Abandoned)
    case Clone(_) => s.(handles := DoClone(s.handles))
    case Drop(handle) => s.(handles := DoDrop(s.handles, handle))
    case StepDrop => DoStepDrop(s)
    case BeginRecv(mode) => s.(recv := Locking(mode))
    case StepRecv => DoStepRecv(s)
    case LockTimeout => s.(recv := Idle, log := s.log.(reports := s.log.reports + [Timeout(true)]))
    case Wake(timedOut) => s.(recv := Relocking(s.recv.mode, timedOut), shared := s.shared.(waiter := Absent))
    case Abandon => s.(recv := Idle, shared := s.shared.(waiter := Absent))
    case DropReceiver => s.(recv := Leaving, shared := s.shared.(receiverActive := false))
  }

  function Next<T>(s: State<T>, a: Action<T>): Option<State<T>> {
    if Enabled(s, a) then Some(Apply(s, a)) else None
  }

  /** The state after performing `run` in order on a fresh channel, if every action
      was possible when its turn came. */
  function Perform<T>(run: seq<Action<T>>): Option<State<T>> {
    From(Init(), Next, run)
  }
}
