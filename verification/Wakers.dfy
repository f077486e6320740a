/** One thread in `block_on` driving a future that awaits an `AsyncWait`, another
    calling `AsyncWake::wake`, and any number of others waking the same task for
    reasons of their own: `async_wait.rs` on top of the native half of
    `block_on.rs`, one atomic step at a time. */
module Wakers {
  import opened Wrappers
  import opened Machine

  /** The shared `state` byte. */
  datatype Cell = Waiting | Woken | Canceled

  /** The polling thread. The outer future may also drop the wait, instead of polling it
      again or in the very poll in which it was Pending, which is how a select or a
      timeout cancels it. */
  datatype Poller =
    | FirstLoad        // entering `AsyncWait::poll`
    | Register         // saw no wake, before `waker.register`
    | SecondLoad       // registered, before looking again
    | SignalLock       // poll was Pending: acquiring the signal's mutex
    | SignalCheck      // mutex held, before `while !*woken`
    | Asleep(notified: bool)   // in `condvar.wait`, mutex released
    | Clear            // mutex held and the flag was up, before `*woken = false`
    | Dropping(ready: bool)    // before the compare-exchange of `AsyncWait::drop`
    | Finished(ready: bool, canceled: bool)

  /** The thread in `wake`. */
  datatype Waker =
    | Exchange         // before the compare-exchange
    | Take             // it succeeded, before `AtomicWaker::wake` takes the waker
    | WakeLock         // took the block_on waker: acquiring the signal's mutex
    | Raise            // mutex held, before `*woken = true`
    | Announce         // mutex held, before `notify_one`
    | WakeUnlock
    | Returned(delivered: bool)

  /** Whoever else holds a clone of the block_on waker; at most one is past the lock. */
  datatype Other = Away | OtherRaise | OtherAnnounce | OtherUnlock

  datatype Owner = Free | ByPoller | ByWaker | ByOther

  datatype State = State(
    cell: Cell,
    registered: bool,      // the AtomicWaker slot holds the block_on waker
    flag: bool,            // the signal's sticky `woken`
    lock: Owner,           // the mutex around it
    poller: Poller,
    waker: Waker,
    other: Other)

  datatype Action =
    | Poll                 // the polling thread's next step
    | GiveUp               // the future drops the wait, before polling it or after a Pending poll
    | Spurious             // the condvar wait returns without a notification
    | Wake                 // the waking thread's next step
    | OtherWake            // another waker's next step

  function Init(): State {
    State(Waiting, false, false, Free, FirstLoad, Exchange, Away)
  }

  /** `notify_one` on the condvar the polling thread may be in. */
  function Notify(p: Poller): Poller {
    if p.Asleep? then Asleep(true) else p
  }

  predicate Enabled(s: State, a: Action) {
    match a
    case Poll =>
      (match s.poller
       case SignalLock => s.lock == Free
       case Asleep(notified) => notified && s.lock == Free
       case Finished(_, _) => false
       case _ => true)
    case GiveUp => s.poller == FirstLoad || s.poller == SignalLock
    case Spurious => s.poller.Asleep? && s.lock == Free
    case Wake => !s.waker.Returned? && (s.waker == WakeLock ==> s.lock == Free)
    case OtherWake => s.other == Away ==> s.lock == Free
  }

  function PollStep(s: State): State {
    match s.poller
    case FirstLoad => s.(poller := if s.cell == Woken then Dropping(true) else Register)
    case Register => s.(registered := true, poller := SecondLoad)
    case SecondLoad => s.(poller := if s.cell == Woken then Dropping(true) else SignalLock)
    case SignalLock => s.(lock := ByPoller, poller := SignalCheck)
    case SignalCheck => if s.flag then s.(poller := Clear) else s.(lock := Free, poller := Asleep(false))
    case Asleep(_) => s.(lock := ByPoller, poller := SignalCheck)
    case Clear => s.(flag := false, lock := Free, poller := FirstLoad)
    case Dropping(ready) =>
      if s.cell == Waiting then s.(cell := Canceled, poller := Finished(ready, true))
      else s.(poller := Finished(ready, false))
    case Finished(_, _) => s
  }

  function WakeStep(s: State): State {
    match s.waker
    case Exchange => if s.cell == Waiting then s.(cell := Woken, waker := Take) else s.(waker := Returned(false))
    case Take => s.(registered := false, waker := if s.registered then WakeLock else Returned(true))
    case WakeLock => s.(lock := ByWaker, waker := Raise)
    case Raise => s.(flag := true, waker := Announce)
    case Announce => s.(poller := Notify(s.poller), waker := WakeUnlock)
    case WakeUnlock => s.(lock := Free, waker := Returned(true))
    case Returned(_) => s
  }

  function OtherStep(s: State): State {
    match s.other
    case Away => s.(lock := ByOther, other := OtherRaise)
    case OtherRaise => s.(flag := true, other := OtherAnnounce)
    case OtherAnnounce => s.(poller := Notify(s.poller), other := OtherUnlock)
    case OtherUnlock => s.(lock := Free, other := Away)
  }

  function Apply(s: State, a: Action): State
    requires Enabled(s, a)
  {
    match a
    case Poll => PollStep(s)
    case GiveUp => s.(poller := Dropping(false))
    case Spurious => s.(lock := ByPoller, poller := SignalCheck)
    case Wake => WakeStep(s)
    case OtherWake => OtherStep(s)
  }

  function Next(s: State, a: Action): Option<State> {
    if Enabled(s, a) then Some(Apply(s, a)) else None
  }

  function Perform(run: seq<Action>): Option<State> {
    From(Init(), Next, run)
  }

  // ---- what every interleaving keeps ----

  /** Between a `Pending` poll and the next one. */
  predicate BetweenPolls(p: Poller) {
    p == SignalLock || p == SignalCheck || p.Asleep?
  }

  /** `wake` is on its way to raising the flag. */
  predicate WillRaise(s: State) {
    (s.waker == Take && s.registered) || s.waker == WakeLock || s.waker == Raise
  }

  predicate Locks(s: State) {
    && (s.lock == ByPoller <==> s.poller == SignalCheck || s.poller == Clear)
    && (s.lock == ByWaker <==> s.waker == Raise || s.waker == Announce || s.waker == WakeUnlock)
    && (s.lock == ByOther <==> s.other != Away)
  }

  predicate Exchanges(s: State) {
    && (s.cell == Woken <==> s.waker != Exchange && s.waker != Returned(false))
    && (s.cell == Canceled <==> s.poller.Finished? && s.poller.canceled)
    && (s.waker == Returned(false) ==> s.cell == Canceled)
    && ((s.poller.Dropping? || s.poller.Finished?) && s.poller.ready ==> s.cell == Woken)
    && (s.poller.Finished? ==> s.cell != Waiting)
  }

  predicate Inv(s: State) {
    && Locks(s)
    && Exchanges(s)
    && ((s.poller == SecondLoad || BetweenPolls(s.poller)) && (s.waker == Exchange || s.waker == Take) ==> s.registered)
    && (BetweenPolls(s.poller) ==> s.waker == Exchange || WillRaise(s) || s.flag)
    && (s.poller == Asleep(false) && s.flag ==> s.waker == Announce || s.other == OtherAnnounce)
    && (s.waker == WakeUnlock || s.waker == Returned(true) ==> s.poller != Asleep(false))
    && (s.waker == Announce || s.waker == WakeUnlock ==> s.flag)
    && (s.other == OtherAnnounce || s.other == OtherUnlock ==> s.flag)
  }

  lemma PollKeepsInv(s: State)
    requires Inv(s) && Enabled(s, Poll)
    ensures Inv(PollStep(s))
  {
  }

  lemma WakeKeepsInv(s: State)
    requires Inv(s) && Enabled(s, Wake)
    ensures Inv(WakeStep(s))
  {
  }

  lemma OtherKeepsInv(s: State)
    requires Inv(s) && Enabled(s, OtherWake)
    ensures Inv(OtherStep(s))
  {
  }

  lemma StepKeepsInv(s: State, a: Action)
    requires Inv(s) && Enabled(s, a)
    ensures Inv(Apply(s, a))
  {
    match a
    case Poll => PollKeepsInv(s);
    case Wake => WakeKeepsInv(s);
    case OtherWake => OtherKeepsInv(s);
    case _ =>
  }

  lemma {:induction false} RunKeepsInv(run: seq<Action>)
    ensures var r := Perform(run); r.Some? ==> Inv(r.value)
  {
    if run != [] && Perform(run).Some? {
      RunKeepsInv(run[..|run| - 1]);
      StepKeepsInv(Perform(run[..|run| - 1]).value, run[|run| - 1]);
    }
  }

  /** Once `wake` has said it delivered, the polling thread is not asleep waiting for
      a notification still to come. */
  lemma AWakeThatReturnedTrueIsSeen(run: seq<Action>)
    ensures var r := Perform(run);
      r.Some? && r.value.waker == Returned(true) ==> r.value.poller != Asleep(false)
  {
    RunKeepsInv(run);
  }

  /** Of the two compare-exchanges exactly one succeeds, and `wake` and the state of
      the pair both tell which. */
  lemma ExactlyOneExchangeWins(run: seq<Action>)
    requires Perform(run).Some?
    requires Perform(run).value.waker.Returned? && Perform(run).value.poller.Finished?
    ensures var s := Perform(run).value;
      && (s.waker.delivered <==> !s.poller.canceled)
      && (s.waker.delivered <==> s.cell == Woken)
      && (s.poller.ready ==> s.waker.delivered)
  {
    RunKeepsInv(run);
  }

  /** How often the polling thread has taken the flag down to poll again. */
  function PolledAgain(run: seq<Action>): nat
    requires Perform(run).Some?
  {
    if run == [] then 0
    else
      var init, s := run[..|run| - 1], Perform(run[..|run| - 1]).value;
      PolledAgain(init) + if run[|run| - 1] == Poll && s.poller == Clear then 1 else 0
  }

  /** How often somebody has put it up. */
  function Raised(run: seq<Action>): nat
    requires Perform(run).Some?
  {
    if run == [] then 0
    else
      var init, s, a := run[..|run| - 1], Perform(run[..|run| - 1]).value, run[|run| - 1];
      Raised(init) + if (a == Wake && s.waker == Raise) || (a == OtherWake && s.other == OtherRaise) then 1 else 0
  }

  /** The future is never polled again but for a wake of its own: the flag is sticky, and
      goes down with each poll. */
  lemma {:induction false} EachPollIsWoken(run: seq<Action>)
    requires Perform(run).Some?
    ensures PolledAgain(run) + (if Perform(run).value.flag then 1 else 0) <= Raised(run)
    ensures Perform(run).value.poller == Clear ==> Perform(run).value.flag
  {
    if run != [] {
      EachPollIsWoken(run[..|run| - 1]);
      RunKeepsInv(run[..|run| - 1]);
    }
  }

  /** How many of its own steps the waking thread is from returning. */
  function WakeDistance(w: Waker): nat {
    match w
    case Exchange => 6
    case Take => 5
    case WakeLock => 4
    case Raise => 3
    case Announce => 2
    case WakeUnlock => 1
    case Returned(_) => 0
  }

  /** `wake` always returns: each of its steps brings it closer, nobody else moves it, and it
      or whoever holds the mutex can step. */
  lemma AWakeReturns(run: seq<Action>, a: Action)
    requires Perform(run).Some? && !Perform(run).value.waker.Returned?
    ensures var s := Perform(run).value;
      && (Enabled(s, a) && a == Wake ==> WakeDistance(Apply(s, a).waker) < WakeDistance(s.waker))
      && (Enabled(s, a) && a != Wake ==> Apply(s, a).waker == s.waker)
      && (|| Enabled(s, Wake)
          || (s.lock == ByPoller && Enabled(s, Poll))
          || (s.lock == ByOther && Enabled(s, OtherWake)))
  {
    RunKeepsInv(run);
  }

  /** How many of its own steps the polling thread is from leaving `poll` with Ready. */
  function Distance(p: Poller): nat {
    match p
    case Asleep(_) => 7
    case SignalLock => 6
    case SignalCheck => 5
    case Clear => 4
    case Register => 3
    case SecondLoad => 2
    case FirstLoad => 1
    case _ => 0
  }

  /** From then on every step the polling thread takes brings it closer to finishing,
      no step of the others takes it further away, and it can always step unless
      another waker holds the mutex, in which case that waker can. */
  lemma AfterTheWakeThePollFinishes(run: seq<Action>, a: Action)
    requires Perform(run).Some? && Perform(run).value.waker == Returned(true)
    requires Distance(Perform(run).value.poller) > 0
    ensures var s := Perform(run).value;
      && (Enabled(s, a) ==>
            && Distance(Apply(s, a).poller) <= Distance(s.poller)
            && (a == Poll || a == GiveUp || a == Spurious ==> Distance(Apply(s, a).poller) < Distance(s.poller))
            && (Apply(s, a).poller.Dropping? && a != GiveUp ==> Apply(s, a).poller.ready))
      && (Enabled(s, Poll) || (s.other != Away && Enabled(s, OtherWake)))
  {
    RunKeepsInv(run);
  }
}
