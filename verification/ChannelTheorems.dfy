/** The promises of the channel, for every interleaving of any number of senders
    with the one receiver. */
module ChannelTheorems {
  import opened Wrappers
  import opened Machine
  import opened Channel
  import opened ChannelInvariant

  // ---- wakeups ----

  /** A receiver parked without a notification has nothing to be woken for, or
      some sender or the last drop is still on its way to notify it. */
  lemma NeverLosesAWakeup<T>(run: seq<Action<T>>)
    ensures var r := Perform(run); r.Some? ==> NoLostWakeup(r.value)
  {
    RunKeepsInv(run);
  }

  /** And that notifier is never stuck: the next step of one of them is possible now. */
  lemma TheNotifierCanStep<T>(run: seq<Action<T>>)
    requires Perform(run).Some?
    ensures var s := Perform(run).value;
      s.recv.Parked? && s.shared.waiter == Registered ==>
        && (s.shared.queue != [] ==> exists t :: t in s.sends && HasPushed(s.sends[t].pc) && Enabled(s, StepSend(t)))
        && (s.handles.count == 0 ==> Enabled(s, StepDrop))
  {
    RunKeepsInv(run);
    var s := Perform(run).value;
    if s.recv.Parked? && s.shared.waiter == Registered && s.shared.queue != [] {
      var t :| t in s.sends && HasPushed(s.sends[t].pc);
      assert Enabled(s, StepSend(t));
    }
  }

  /** The same channel, but the last sender notifies without taking the queue lock. */
  function ApplyUnlocked<T>(s: State<T>, a: Action<T>): State<T>
    requires Enabled(s, a)
  {
    var next := Apply(s, a);
    if a.Drop? && next.handles.lastDrop == DropWantLock
    then next.(handles := next.handles.(lastDrop := DropNotify)) else next
  }

  function NextUnlocked<T>(s: State<T>, a: Action<T>): Option<State<T>> {
    if Enabled(s, a) then Some(ApplyUnlocked(s, a)) else None
  }

  function PerformUnlocked<T>(run: seq<Action<T>>): Option<State<T>> {
    From(Init(), NextUnlocked, run)
  }

  /** The receiver has looked at the count and is about to register; the last
      handle goes, and its notification finds nobody. */
  lemma UnlockedDropIsUnseen<T>() returns (run: seq<Action<T>>)
    ensures PerformUnlocked(run) ==
      Some(State(Shared([], ByReceiver, Absent, true), Handles({}, 1, 0, DropDone), map[], Registering(Untimed), Log([], [], [], [])))
  {
    run := [];
    var s: State<T> := Init();
    run, s := OneMore(Init(), NextUnlocked, run, s, BeginRecv(Untimed));
    run, s := OneMore(Init(), NextUnlocked, run, s, StepRecv);
    run, s := OneMore(Init(), NextUnlocked, run, s, StepRecv);
    run, s := OneMore(Init(), NextUnlocked, run, s, StepRecv);
    assert s == State(Shared([], ByReceiver, Absent, true), Handles({0}, 1, 1, NotYet), map[], Registering(Untimed), Log([], [], [], []));
    run, s := OneMore(Init(), NextUnlocked, run, s, Drop(0));
    run, s := OneMore(Init(), NextUnlocked, run, s, StepDrop);
    assert s == State(Shared([], ByReceiver, Absent, true), Handles({}, 1, 0, DropDone), map[], Registering(Untimed), Log([], [], [], []));
  }

  /** Without the lock the wakeup is lost: the receiver sleeps on a channel nobody is
      left to announce the end of, and only a spurious return can free it. */
  lemma UnlockedDropLosesTheWakeup<T>() returns (run: seq<Action<T>>)
    ensures PerformUnlocked(run).Some?
    ensures var s := PerformUnlocked(run).value;
      && !NoLostWakeup(s)
      && s.handles.live == {}
      && forall a :: Enabled(s, a) ==> a == Wake(false) || a == Abandon
  {
    run := UnlockedDropIsUnseen();
    var s := PerformUnlocked(run).value;
    run, s := OneMore(Init(), NextUnlocked, run, s, StepRecv);
    run, s := OneMore(Init(), NextUnlocked, run, s, StepRecv);
    assert s == State(Shared([], Free, Registered, true), Handles({}, 1, 0, DropDone), map[], Parked(Untimed), Log([], [], [], []));
  }

  // ---- progress ----

  predicate HasNews<T>(s: State<T>) {
    s.shared.queue != [] || s.handles.count == 0
  }

  /** How many of its own steps a receive call is from returning, once there is news. */
  function Distance<T>(r: RecvPc<T>): nat {
    match r
    case Registering(_) => 7
    case Releasing(_) => 6
    case Parked(_) => 5
    case Locking(_) => 4
    case Relocking(_, _) => 4
    case Popping(_) => 3
    case Missed(_) => 2
    case Returning(_) => 1
    case _ => 0
  }

  predicate ByTheReceiver<T>(a: Action<T>) {
    a == StepRecv || a.Wake? || a == LockTimeout || a == Abandon
  }

  /** With a value queued or the end reached, every step of a running receive brings it
      closer to returning, nobody else's step moves it or takes the news away, and it can
      step on its own, or the holder of the lock can, or the one on its way to notify it. */
  lemma AReceiveWithNewsReturns<T>(run: seq<Action<T>>, a: Action<T>)
    requires Perform(run).Some? && HasNews(Perform(run).value) && Distance(Perform(run).value.recv) > 0
    ensures var s := Perform(run).value;
      && (Enabled(s, a) && ByTheReceiver(a) ==> Distance(Apply(s, a).recv) < Distance(s.recv))
      && (Enabled(s, a) && !ByTheReceiver(a) ==> Apply(s, a).recv == s.recv && HasNews(Apply(s, a)))
      && (|| Enabled(s, StepRecv)
          || (s.recv.Parked? && s.shared.waiter == Notified && Enabled(s, Wake(false)))
          || (exists t :: t in s.sends && (HoldsLock(s.sends[t].pc) || HasPushed(s.sends[t].pc)) && Enabled(s, StepSend(t)))
          || (DropPending(s.handles.lastDrop) && Enabled(s, StepDrop)))
  {
    RunKeepsInv(run);
    hide Perform;
    var s := Perform(run).value;
    if Enabled(s, a) {
      NewsStays(s, a);
    }
    SomebodyCanStep(s);
  }

  lemma NewsStays<T>(s: State<T>, a: Action<T>)
    requires Inv(s) && HasNews(s) && Distance(s.recv) > 0 && Enabled(s, a)
    ensures ByTheReceiver(a) ==> Distance(Apply(s, a).recv) < Distance(s.recv)
    ensures !ByTheReceiver(a) ==> Apply(s, a).recv == s.recv && HasNews(Apply(s, a))
  {
    hide Accounted, Ordered, Flow, Final, EndAwake, RefusedOnlyAfterDrop, CallersLocked, OthersLocked;
  }

  lemma SomebodyCanStep<T>(s: State<T>)
    requires Inv(s) && HasNews(s) && Distance(s.recv) > 0
    ensures
      || Enabled(s, StepRecv)
      || (s.recv.Parked? && s.shared.waiter == Notified && Enabled(s, Wake(false)))
      || (exists t :: t in s.sends && (HoldsLock(s.sends[t].pc) || HasPushed(s.sends[t].pc)) && Enabled(s, StepSend(t)))
      || (DropPending(s.handles.lastDrop) && Enabled(s, StepDrop))
  {
    hide Accounted, Ordered, Flow, Final, RefusedOnlyAfterDrop;
    if s.shared.lock.ByCaller? {
      assert Enabled(s, StepSend(s.shared.lock.thread));
    } else if s.recv.Parked? && s.shared.waiter == Registered && s.shared.queue != [] {
      var t :| t in s.sends && HasPushed(s.sends[t].pc);
      assert Enabled(s, StepSend(t));
    }
  }

  // ---- values ----

  /** How many of these messages come from call `k`. */
  function Copies<T>(msgs: seq<Msg<T>>, k: nat): nat {
    if msgs == [] then 0
    else Copies(msgs[..|msgs| - 1], k) + if msgs[|msgs| - 1].ticket == k then 1 else 0
  }

  lemma {:induction false} CopiesOfTwo<T>(a: seq<Msg<T>>, b: seq<Msg<T>>, k: nat)
    ensures Copies(a + b, k) == Copies(a, k) + Copies(b, k)
  {
    if b == [] {
      assert a + b == a;
    } else {
      CopiesOfTwo(a, b[..|b| - 1], k);
      assert (a + b)[..|a + b| - 1] == a + b[..|b| - 1];
    }
  }

  lemma {:induction false} NoCopies<T>(msgs: seq<Msg<T>>, k: nat)
    requires forall i :: 0 <= i < |msgs| ==> msgs[i].ticket != k
    ensures Copies(msgs, k) == 0
  {
    if msgs != [] {
      NoCopies(msgs[..|msgs| - 1], k);
    }
  }

  lemma OneCopy<T>(msgs: seq<Msg<T>>, at: nat, k: nat)
    requires at < |msgs| && forall i :: 0 <= i < |msgs| ==> (msgs[i].ticket == k <==> i == at)
    ensures Copies(msgs, k) == 1
  {
    assert msgs == msgs[..at + 1] + msgs[at + 1..];
    CopiesOfTwo(msgs[..at + 1], msgs[at + 1..], k);
    NoCopies(msgs[at + 1..], k);
    assert msgs[..at + 1][..at] == msgs[..at];
    NoCopies(msgs[..at], k);
  }

  function One(b: bool): nat { if b then 1 else 0 }

  /** Everything pushed is what was received followed by what is queued, and what was
      received is what the receive calls returned, in order. */
  lemma ChannelIsAQueue<T>(run: seq<Action<T>>)
    requires Perform(run).Some?
    ensures var s := Perform(run).value;
      && s.log.pushed == s.log.received + s.shared.queue
      && s.log.received == Delivered(s.log.reports) + OnItsWay(s.recv)
  {
    RunKeepsInv(run);
  }

  /** The value of every call that has returned is in exactly one place, once:
      received, queued, or handed back by that same call. */
  lemma EveryValueIsInOnePlace<T>(run: seq<Action<T>>, k: nat)
    requires Perform(run).Some? && k < |Perform(run).value.log.calls|
    ensures var s := Perform(run).value; var fate := s.log.calls[k].fate;
      && Copies(s.log.received, k) + Copies(s.shared.queue, k)
         + One(fate.Refused?) + One(fate == Running) + One(fate == Abandoned) == 1
      && (fate.Refused? ==> fate.value == s.log.calls[k].value)
      && (fate == Running ==> s.log.calls[k].from in s.sends)
  {
    RunKeepsInv(run);
    var s := Perform(run).value;
    CopiesOfTwo(s.log.received, s.shared.queue, k);
    if s.log.calls[k].fate.Pushed? {
      OneCopy(s.log.pushed, s.log.calls[k].fate.index, k);
    } else {
      NoCopies(s.log.pushed, k);
    }
  }

  /** Whatever arrives carries the value its call was given, and two values sent by
      one thread arrive in the order that thread sent them. */
  lemma ArrivesUnchangedAndInOrder<T>(run: seq<Action<T>>, i: nat, j: nat)
    requires Perform(run).Some? && i < |Perform(run).value.log.received|
    ensures var s := Perform(run).value; var got := s.log.received; var calls := s.log.calls;
      && got[i].ticket < |calls|
      && got[i].value == calls[got[i].ticket].value
      && (i < j < |got| ==>
            && got[j].ticket < |calls|
            && (calls[got[i].ticket].from == calls[got[j].ticket].from ==> got[i].ticket < got[j].ticket))
  {
    RunKeepsInv(run);
    var s := Perform(run).value;
    assert s.log.received[i] == s.log.pushed[i];
    if i < j < |s.log.received| {
      assert s.log.received[j] == s.log.pushed[j];
    }
  }

  // ---- disconnection ----

  /** `sender_count` counts the handles still to decrement it, and once zero it
      stays zero. */
  lemma CountIsHandlesAndZeroIsForever<T>(run: seq<Action<T>>, a: Action<T>)
    requires Perform(run).Some? && Enabled(Perform(run).value, a)
    ensures var s := Perform(run).value;
      && s.handles.count == |s.handles.live|
      && (s.handles.count == 0 ==> Apply(s, a).handles.count == 0)
  {
    RunKeepsInv(run);
    StepKeepsInv(Perform(run).value, a);
  }

  lemma {:induction false} NothingDeliveredAfter<T>(reports: seq<Report<T>>, i: nat)
    requires i < |reports| && forall j :: i <= j < |reports| ==> !reports[j].Received?
    ensures Delivered(reports) == Delivered(reports[..i])
  {
    var shorter := reports[..|reports| - 1];
    if i < |shorter| {
      NothingDeliveredAfter(shorter, i);
      assert shorter[..i] == reports[..i];
    }
  }

  /** When a receive reports `Disconnected`, every value ever accepted has been
      returned by an earlier receive, and every later receive reports it too, save a
      timed one that could not get the lock. */
  lemma DisconnectedIsLosslessAndFinal<T>(run: seq<Action<T>>, i: nat)
    requires Perform(run).Some?
    requires i < |Perform(run).value.log.reports| && Perform(run).value.log.reports[i] == Disconnected
    ensures var s := Perform(run).value;
      && s.handles.live == {}
      && s.log.pushed == Delivered(s.log.reports[..i])
      && (forall k :: 0 <= k < |s.log.calls| && s.log.calls[k].fate.Pushed? ==>
            Msg(k, s.log.calls[k].value) in Delivered(s.log.reports[..i]))
      && (forall j :: i < j < |s.log.reports| ==> s.log.reports[j] == Disconnected || s.log.reports[j] == Timeout(true))
  {
    RunKeepsInv(run);
    var s := Perform(run).value;
    assert SaidDisconnected(s.log.reports);
    assert OnItsWay(s.recv) == [];
    NothingDeliveredAfter(s.log.reports, i);
    forall k | 0 <= k < |s.log.calls| && s.log.calls[k].fate.Pushed?
      ensures Msg(k, s.log.calls[k].value) in s.log.pushed
    {
      assert s.log.pushed[s.log.calls[k].fate.index] == Msg(k, s.log.calls[k].value);
    }
  }

  /** What a step adds to the reports once the end has been reported. */
  function ReportedAfterTheEnd<T>(s: State<T>, a: Action<T>): seq<Report<T>> {
    if a == LockTimeout then [Timeout(true)]
    else if a == StepRecv && s.recv.Returning? then [Disconnected]
    else []
  }

  /** After a receive has reported `Disconnected`, the one step that reports anything
      else is a timed receive giving up on the queue lock, and that is possible exactly
      while the last drop holds it. */
  lemma OnlyTheLockTimesOut<T>(run: seq<Action<T>>, a: Action<T>)
    requires Perform(run).Some? && SaidDisconnected(Perform(run).value.log.reports) && Enabled(Perform(run).value, a)
    ensures var s := Perform(run).value;
      && (Enabled(s, LockTimeout) <==> s.recv == Locking(Timed) && s.handles.lastDrop == DropHolding)
      && Apply(s, a).log.reports == s.log.reports + ReportedAfterTheEnd(s, a)
  {
    RunKeepsInv(run);
    hide Perform, Enabled, Apply;
    TheLockAfterTheEnd(Perform(run).value);
    ReportsAfterTheEnd(Perform(run).value, a);
  }

  /** Once the channel has ended, nobody sends, and only the receiver and the last drop
      can hold the lock. */
  lemma TheLockAfterTheEnd<T>(s: State<T>)
    requires Inv(s) && SaidDisconnected(s.log.reports)
    ensures s.sends == map[] && s.handles.live == {} && s.handles.count == 0 && s.shared.queue == []
    ensures s.shared.lock == Free <==> s.handles.lastDrop != DropHolding && !ReceiverHoldsLock(s.recv)
    ensures Enabled(s, LockTimeout) <==> s.recv == Locking(Timed) && s.handles.lastDrop == DropHolding
  {
    hide Accounted, Ordered, Flow, ValueAwake, EndAwake, RefusedOnlyAfterDrop, SaidDisconnected;
    assert s.sends.Keys == {};
  }

  lemma ReportsAfterTheEnd<T>(s: State<T>, a: Action<T>)
    requires Inv(s) && SaidDisconnected(s.log.reports) && Enabled(s, a)
    ensures Apply(s, a).log.reports == s.log.reports + ReportedAfterTheEnd(s, a)
  {
    hide Accounted, Ordered, Flow, ValueAwake, EndAwake, RefusedOnlyAfterDrop, Counted, CallersLocked;
    assert s.log.reports + [] == s.log.reports;
  }

  // A whole receive, begun after the end: `before` is what was reported until then.

  /** Nothing but what this one call does, and what others do meanwhile. */
  ghost predicate NoOtherCall<T>(more: seq<Action<T>>) {
    forall i :: 0 <= i < |more| ==> !more[i].BeginRecv?
  }

  /** `late`: the last drop had given the queue lock back when the call began. */
  predicate Late(d: LastDrop) {
    d == DropNotify || d == DropDone
  }

  predicate CanReport<T>(r: Report<T>, mode: Mode, late: bool) {
    r == Disconnected || (r == Timeout(true) && mode == Timed && !late)
  }

  /** Where such a call, or what follows it, can be. */
  ghost predicate InCall<T>(s: State<T>, before: seq<Report<T>>, mode: Mode, late: bool) {
    && (late ==> Late(s.handles.lastDrop))
    && if s.log.reports == before then
         s.recv == Locking(mode) || s.recv == Popping(mode) || s.recv == Missed(mode) || s.recv == Returning(Disconnected) ||
         s.recv == Idle || s.recv == Leaving || s.recv == Gone
       else
         && |s.log.reports| == |before| + 1 && s.log.reports[..|before|] == before
         && CanReport(s.log.reports[|before|], mode, late)
         && (s.recv == Idle || s.recv == Leaving || s.recv == Gone)
  }

  lemma InCallKept<T>(s: State<T>, a: Action<T>, before: seq<Report<T>>, mode: Mode, late: bool)
    requires Inv(s) && SaidDisconnected(s.log.reports) && Enabled(s, a) && !a.BeginRecv?
    requires InCall(s, before, mode, late)
    ensures InCall(Apply(s, a), before, mode, late)
  {
    TheLockAfterTheEnd(s);
    ReportsAfterTheEnd(s, a);
    hide Inv, SaidDisconnected;
    var reports := Apply(s, a).log.reports;
    if reports != s.log.reports {
      assert s.log.reports == before;
      assert reports[..|before|] == before;
    }
  }

  lemma StaysSaid<T>(run: seq<Action<T>>, more: seq<Action<T>>)
    requires Perform(run + more).Some? && Perform(run).Some? && SaidDisconnected(Perform(run).value.log.reports)
    ensures SaidDisconnected(Perform(run + more).value.log.reports)
  {
    if more == [] {
      assert run + more == run;
    } else {
      var init, a := more[..|more| - 1], more[|more| - 1];
      assert (run + more)[..|run + more| - 1] == run + init;
      StaysSaid(run, init);
      OnlyTheLockTimesOut(run + init, a);
      var s := Perform(run + init).value;
      var i :| 0 <= i < |s.log.reports| && s.log.reports[i].Disconnected?;
      assert Apply(s, a).log.reports[i].Disconnected?;
    }
  }

  lemma CallBegins<T>(run: seq<Action<T>>, mode: Mode)
    requires Perform(run).Some? && Perform(run).value.recv == Idle
    ensures Perform(run + [BeginRecv(mode)]).Some?
    ensures var s := Perform(run).value;
      InCall(Perform(run + [BeginRecv(mode)]).value, s.log.reports, mode, Late(s.handles.lastDrop))
  {
    var s := Perform(run).value;
    var begun, s' := OneMore(Init(), Next, run, s, BeginRecv(mode));
    hide Perform, Apply;
    BeginIsInCall(s, mode);
  }

  lemma BeginIsInCall<T>(s: State<T>, mode: Mode)
    requires s.recv == Idle
    ensures InCall(Apply(s, BeginRecv(mode)), s.log.reports, mode, Late(s.handles.lastDrop))
  {
  }

  lemma {:induction false} CallStays<T>(run: seq<Action<T>>, mode: Mode, more: seq<Action<T>>)
    requires Perform(run).Some? && SaidDisconnected(Perform(run).value.log.reports) && Perform(run).value.recv == Idle
    requires NoOtherCall(more) && Perform(run + [BeginRecv(mode)] + more).Some?
    ensures var s := Perform(run).value;
      InCall(Perform(run + [BeginRecv(mode)] + more).value, s.log.reports, mode, Late(s.handles.lastDrop))
  {
    hide InCall, SaidDisconnected, Late, Inv, Enabled, Apply;
    var begun := run + [BeginRecv(mode)];
    var s := Perform(run).value;
    if more == [] {
      CallBegins(run, mode);
      assert begun + more == begun;
    } else {
      var init, a := more[..|more| - 1], more[|more| - 1];
      assert (begun + more)[..|begun + more| - 1] == begun + init;
      CallStays(run, mode, init);
      assert begun + init == run + ([BeginRecv(mode)] + init);
      StaysSaid(run, [BeginRecv(mode)] + init);
      RunKeepsInv(begun + init);
      InCallKept(Perform(begun + init).value, a, s.log.reports, mode, Late(s.handles.lastDrop));
    }
  }

  /** A run in which a receive begun in `mode` after `run` reports `r`. */
  ghost predicate MayReport<T>(run: seq<Action<T>>, mode: Mode, r: Report<T>, more: seq<Action<T>>)
    requires Perform(run).Some?
  {
    && NoOtherCall(more) && Perform(run + [BeginRecv(mode)] + more).Some?
    && Perform(run + [BeginRecv(mode)] + more).value.log.reports == Perform(run).value.log.reports + [r]
  }

  /** After the end, a receive may report other than `Disconnected` exactly if it is
      timed and begins before the last drop has given the queue lock back; and what it
      may report then is a timeout on that lock. */
  lemma LaterReceivesExactly<T>(run: seq<Action<T>>, mode: Mode, r: Report<T>)
    requires Perform(run).Some? && SaidDisconnected(Perform(run).value.log.reports) && Perform(run).value.recv == Idle
    requires r != Disconnected
    ensures (exists more :: MayReport(run, mode, r, more)) <==>
      r == Timeout(true) && mode == Timed && !Late(Perform(run).value.handles.lastDrop)
  {
    var s := Perform(run).value;
    forall more | MayReport(run, mode, r, more)
      ensures r == Timeout(true) && mode == Timed && !Late(s.handles.lastDrop)
    {
      CallStays(run, mode, more);
      var reports := Perform(run + [BeginRecv(mode)] + more).value.log.reports;
      assert reports[|s.log.reports|] == r;
    }
    if r == Timeout(true) && mode == Timed && !Late(s.handles.lastDrop) {
      var more := GivesUpOnTheLock(run);
      assert MayReport(run, Timed, Timeout(true), more);
    }
  }

  lemma GivesUpOnTheLock<T>(run: seq<Action<T>>) returns (more: seq<Action<T>>)
    requires Perform(run).Some? && SaidDisconnected(Perform(run).value.log.reports) && Perform(run).value.recv == Idle
    requires !Late(Perform(run).value.handles.lastDrop)
    ensures MayReport(run, Timed, Timeout(true), more)
  {
    var s := Perform(run).value;
    RunKeepsInv(run);
    TheLockAfterTheEnd(s);
    hide SaidDisconnected, Late;
    assert s.handles.lastDrop == DropWantLock || s.handles.lastDrop == DropHolding by { NotLate(s); }
    hide Inv;
    var steps := if s.handles.lastDrop == DropWantLock then [BeginRecv(Timed), StepDrop, LockTimeout] else [BeginRecv(Timed), LockTimeout];
    var longer, s' := OneMore(Init(), Next, run, s, BeginRecv(Timed));
    if s.handles.lastDrop == DropWantLock {
      longer, s' := OneMore(Init(), Next, longer, s', StepDrop);
    }
    longer, s' := OneMore(Init(), Next, longer, s', LockTimeout);
    more := steps[1..];
    assert run + [BeginRecv(Timed)] + more == longer;
  }

  lemma NotLate<T>(s: State<T>)
    requires Inv(s) && SaidDisconnected(s.log.reports) && !Late(s.handles.lastDrop)
    ensures s.handles.lastDrop == DropWantLock || s.handles.lastDrop == DropHolding
  {
  }

  lemma DisconnectedBeforeTheDropEnds<T>() returns (run: seq<Action<T>>)
    ensures Perform(run) ==
      Some(State(Shared([], Free, Absent, true), Handles({}, 1, 0, DropWantLock), map[], Idle, Log([], [], [], [Disconnected])))
  {
    run := [];
    var s: State<T> := Init();
    run, s := OneMore(Init(), Next, run, s, Drop(0));
    assert s == State(Shared([], Free, Absent, true), Handles({}, 1, 0, DropWantLock), map[], Idle, Log([], [], [], []));
    run, s := OneMore(Init(), Next, run, s, BeginRecv(Try));
    run, s := OneMore(Init(), Next, run, s, StepRecv);
    run, s := OneMore(Init(), Next, run, s, StepRecv);
    run, s := OneMore(Init(), Next, run, s, StepRecv);
    run, s := OneMore(Init(), Next, run, s, StepRecv);
    assert s == State(Shared([], Free, Absent, true), Handles({}, 1, 0, DropWantLock), map[], Idle, Log([], [], [], [Disconnected]));
  }

  /** The exception is real: the last drop holds the lock for a moment after the
      count reached zero, and a timed receive started then can give up on the lock. */
  lemma ATimedReceiveCanTimeOutAfterTheEnd<T>() returns (run: seq<Action<T>>)
    ensures Perform(run).Some? && Perform(run).value.log.reports == [Disconnected, Timeout(true)]
  {
    run := DisconnectedBeforeTheDropEnds();
    var s := Perform(run).value;
    run, s := OneMore(Init(), Next, run, s, StepDrop);
    run, s := OneMore(Init(), Next, run, s, BeginRecv(Timed));
    run, s := OneMore(Init(), Next, run, s, LockTimeout);
  }
}
