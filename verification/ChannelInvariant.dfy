/** What every interleaving of the channel keeps. */
module ChannelInvariant {
  import opened Channel

  predicate HoldsLock(pc: SendPc) {
    pc == SecondCheck || pc == Push || pc == Unlock || pc == Refusing
  }

  predicate HasPushed(pc: SendPc) {
    pc == Unlock || pc == Notify
  }

  predicate ReceiverHoldsLock<T>(r: RecvPc<T>) {
    r.Popping? || r.Missed? || r.Registering? || r.Releasing? || r.Returning?
  }

  /** The count is the number of handles still to decrement it, and reaching zero
      is exactly what starts the last drop. A running call borrows a live handle. */
  ghost predicate Counted<T>(h: Handles, sends: map<nat, Send<T>>) {
    && h.count == |h.live|
    && (forall k :: k in h.live ==> k < h.next)
    && (h.lastDrop == NotYet <==> h.live != {})
    && (forall t :: t in sends ==> sends[t].handle in h.live)
  }

  ghost predicate CallersLocked<T>(lock: Owner, sends: map<nat, Send<T>>) {
    && (forall t :: t in sends && HoldsLock(sends[t].pc) ==> lock == ByCaller(t))
    && (lock.ByCaller? ==> lock.thread in sends && HoldsLock(sends[lock.thread].pc))
  }

  predicate OthersLocked<T>(lock: Owner, lastDrop: LastDrop, recv: RecvPc<T>) {
    && (lock == ByDropper <==> lastDrop == DropHolding)
    && (lock == ByReceiver <==> ReceiverHoldsLock(recv))
  }

  predicate ReceiverFlags<T>(waiter: Waiter, active: bool, recv: RecvPc<T>) {
    && (active <==> !recv.Leaving? && !recv.Gone?)
    && (waiter != Absent <==> recv.Releasing? || recv.Parked?)
  }

  /** A sender that has pushed but not yet notified. */
  ghost predicate NotifierPending<T>(sends: map<nat, Send<T>>) {
    exists t :: t in sends && HasPushed(sends[t].pc)
  }

  predicate DropPending(d: LastDrop) {
    d == DropWantLock || d == DropHolding || d == DropNotify
  }

  /** The receiver is never left waiting for a value or for the end of the channel
      once that has happened and nobody is still on the way to announce it. */
  ghost predicate NoLostWakeup<T>(s: State<T>) {
    s.recv.Parked? && s.shared.waiter == Registered ==>
      && (s.shared.queue == [] || NotifierPending(s.sends))
      && (s.handles.count > 0 || DropPending(s.handles.lastDrop))
  }

  /** `NoLostWakeup`, strengthened to cover the steps that lead up to parking. */
  ghost predicate ValueAwake<T>(queue: seq<Msg<T>>, waiter: Waiter, sends: map<nat, Send<T>>, recv: RecvPc<T>) {
    && (recv.Missed? || recv.Registering? || recv.Releasing? ==> queue == [])
    && (recv.Parked? && waiter == Registered ==> queue == [] || NotifierPending(sends))
  }

  ghost predicate EndAwake<T>(waiter: Waiter, h: Handles, recv: RecvPc<T>) {
    && (recv.Registering? ==> h.live != {} || h.lastDrop == DropWantLock)
    && (recv.Releasing? && waiter == Registered ==> h.live != {} || h.lastDrop == DropWantLock)
    && (recv.Parked? && waiter == Registered ==> h.live != {} || DropPending(h.lastDrop))
  }

  /** Where the log says a call is, is where it is. */
  ghost predicate Accounted<T>(calls: seq<Call<T>>, pushed: seq<Msg<T>>, sends: map<nat, Send<T>>) {
    && (forall k :: 0 <= k < |calls| ==> FateHolds(k, calls[k], pushed, sends))
    && (forall i :: 0 <= i < |pushed| ==>
          && pushed[i].ticket < |calls|
          && calls[pushed[i].ticket].fate == Pushed(i)
          && calls[pushed[i].ticket].value == pushed[i].value)
    && (forall t :: t in sends ==> CallHolds(t, sends[t], calls))
  }

  ghost predicate FateHolds<T>(k: nat, c: Call<T>, pushed: seq<Msg<T>>, sends: map<nat, Send<T>>) {
    match c.fate
    case Running => c.from in sends && sends[c.from].msg.ticket == k && !HasPushed(sends[c.from].pc)
    case Pushed(i) => i < |pushed| && pushed[i].ticket == k
    case Refused(v) => v == c.value
    case Abandoned => true
  }

  ghost predicate CallHolds<T>(t: nat, c: Send<T>, calls: seq<Call<T>>) {
    && c.msg.ticket < |calls|
    && calls[c.msg.ticket].from == t
    && calls[c.msg.ticket].value == c.msg.value
    && (HasPushed(c.pc) <==> calls[c.msg.ticket].fate.Pushed?)
    && (!HasPushed(c.pc) <==> calls[c.msg.ticket].fate == Running)
    && forall k :: c.msg.ticket < k < |calls| ==> calls[k].from != t
  }

  /** One thread's values are pushed in the order of its calls. */
  ghost predicate Ordered<T>(calls: seq<Call<T>>, pushed: seq<Msg<T>>) {
    && (forall i :: 0 <= i < |pushed| ==> pushed[i].ticket < |calls|)
    && forall i, j :: 0 <= i < j < |pushed| && calls[pushed[i].ticket].from == calls[pushed[j].ticket].from ==>
         pushed[i].ticket < pushed[j].ticket
  }

  /** The values the receive calls returned, in order. */
  function Delivered<T>(reports: seq<Report<T>>): seq<Msg<T>> {
    if reports == [] then []
    else
      var last := reports[|reports| - 1];
      Delivered(reports[..|reports| - 1]) + if last.Received? then [last.msg] else []
  }

  function OnItsWay<T>(recv: RecvPc<T>): seq<Msg<T>> {
    if recv.Returning? && recv.report.Received? then [recv.report.msg] else []
  }

  ghost predicate Flow<T>(queue: seq<Msg<T>>, recv: RecvPc<T>, log: Log<T>) {
    && log.pushed == log.received + queue
    && log.received == Delivered(log.reports) + OnItsWay(recv)
  }

  predicate AfterTheEnd<T>(r: Report<T>) {
    r.Disconnected? || r == Timeout(true)
  }

  ghost predicate SaidDisconnected<T>(reports: seq<Report<T>>) {
    exists i :: 0 <= i < |reports| && reports[i].Disconnected?
  }

  ghost predicate Final<T>(queue: seq<Msg<T>>, live: set<nat>, recv: RecvPc<T>, reports: seq<Report<T>>) {
    && (SaidDisconnected(reports) || recv == Returning(Disconnected) ==> live == {} && queue == [])
    && (SaidDisconnected(reports) && recv.Returning? ==> recv.report == Disconnected)
    && (SaidDisconnected(reports) ==> !recv.Registering? && !recv.Releasing? && !recv.Parked? && !recv.Relocking?)
    && (forall i, j :: 0 <= i < j < |reports| && reports[i].Disconnected? ==> AfterTheEnd(reports[j]))
  }

  ghost predicate RefusedOnlyAfterDrop<T>(calls: seq<Call<T>>, active: bool, sends: map<nat, Send<T>>) {
    && (forall k :: 0 <= k < |calls| && calls[k].fate.Refused? ==> !active)
    && (forall t :: t in sends && sends[t].pc == Refusing ==> !active)
  }

  ghost predicate Inv<T>(s: State<T>) {
    && Counted(s.handles, s.sends)
    && CallersLocked(s.shared.lock, s.sends)
    && OthersLocked(s.shared.lock, s.handles.lastDrop, s.recv)
    && ReceiverFlags(s.shared.waiter, s.shared.receiverActive, s.recv)
    && ValueAwake(s.shared.queue, s.shared.waiter, s.sends, s.recv)
    && EndAwake(s.shared.waiter, s.handles, s.recv)
    && Accounted(s.log.calls, s.log.pushed, s.sends)
    && Ordered(s.log.calls, s.log.pushed)
    && Flow(s.shared.queue, s.recv, s.log)
    && Final(s.shared.queue, s.handles.live, s.recv, s.log.reports)
    && RefusedOnlyAfterDrop(s.log.calls, s.shared.receiverActive, s.sends)
  }

  // ---- the parts that need a hint ----

  lemma PendingKept<T>(sends: map<nat, Send<T>>, after: map<nat, Send<T>>, t: nat)
    requires t in sends && !HasPushed(sends[t].pc)
    requires forall u :: u in sends && u != t ==> u in after && after[u] == sends[u]
    ensures NotifierPending(sends) ==> NotifierPending(after)
  {
    if NotifierPending(sends) {
      var u :| u in sends && HasPushed(sends[u].pc);
      assert u in after && HasPushed(after[u].pc);
    }
  }

  lemma AccountedAt<T>(s: State<T>, t: nat, pc: SendPc)
    requires Accounted(s.log.calls, s.log.pushed, s.sends) && t in s.sends
    requires HasPushed(pc) <==> HasPushed(s.sends[t].pc)
    ensures Accounted(s.log.calls, s.log.pushed, At(s, t, pc).sends)
  {
  }

  lemma AccountedBegin<T>(s: State<T>, t: nat, h: nat, v: T)
    requires Accounted(s.log.calls, s.log.pushed, s.sends) && CanBeginSend(s, t, h)
    ensures var s' := DoBeginSend(s, t, h, v); Accounted(s'.log.calls, s'.log.pushed, s'.sends)
  {
  }

  lemma AccountedEnd<T>(s: State<T>, t: nat, fate: Fate<T>)
    requires Accounted(s.log.calls, s.log.pushed, s.sends) && t in s.sends && !HasPushed(s.sends[t].pc)
    requires fate == Abandoned || fate == Refused(s.sends[t].msg.value)
    ensures var s' := End(s, t, fate); Accounted(s'.log.calls, s'.log.pushed, s'.sends)
  {
  }

  lemma AccountedPush<T>(s: State<T>, t: nat)
    requires Accounted(s.log.calls, s.log.pushed, s.sends) && t in s.sends && s.sends[t].pc == Push
    ensures var s' := DoStepSend(s, t); Accounted(s'.log.calls, s'.log.pushed, s'.sends)
  {
  }

  lemma OrderedPush<T>(s: State<T>, t: nat)
    requires Accounted(s.log.calls, s.log.pushed, s.sends) && t in s.sends && s.sends[t].pc == Push
    requires Ordered(s.log.calls, s.log.pushed)
    ensures var s' := DoStepSend(s, t); Ordered(s'.log.calls, s'.log.pushed)
  {
  }

  lemma OrderedBegin<T>(s: State<T>, t: nat, h: nat, v: T)
    requires Ordered(s.log.calls, s.log.pushed)
    ensures var s' := DoBeginSend(s, t, h, v); Ordered(s'.log.calls, s'.log.pushed)
  {
  }

  lemma OrderedSettle<T>(log: Log<T>, ticket: nat, fate: Fate<T>)
    requires Ordered(log.calls, log.pushed)
    ensures Ordered(Settle(log, ticket, fate).calls, log.pushed)
  {
  }

  lemma DeliveredAppend<T>(reports: seq<Report<T>>, r: Report<T>)
    ensures Delivered(reports + [r]) == Delivered(reports) + if r.Received? then [r.msg] else []
  {
    assert (reports + [r])[..|reports|] == reports;
  }

  /** A call that leaves without the lock and without having pushed disturbs nobody. */
  lemma EndBorrows<T>(s: State<T>, t: nat, fate: Fate<T>)
    requires Inv(s) && t in s.sends && !HasPushed(s.sends[t].pc) && !HoldsLock(s.sends[t].pc)
    requires fate == Abandoned || (fate == Refused(s.sends[t].msg.value) && !s.shared.receiverActive)
    ensures var s' := End(s, t, fate);
      && Counted(s.handles, s'.sends) && CallersLocked(s.shared.lock, s'.sends)
      && (NotifierPending(s.sends) ==> NotifierPending(s'.sends))
      && RefusedOnlyAfterDrop(s'.log.calls, s.shared.receiverActive, s'.sends)
  {
    hide Accounted, Ordered, Flow, Final, ValueAwake, EndAwake;
    PendingKept(s.sends, s.sends - {t}, t);
  }

  lemma EndKept<T>(s: State<T>, t: nat, fate: Fate<T>)
    requires Inv(s) && t in s.sends && !HasPushed(s.sends[t].pc) && !HoldsLock(s.sends[t].pc)
    requires fate == Abandoned || (fate == Refused(s.sends[t].msg.value) && !s.shared.receiverActive)
    ensures Inv(End(s, t, fate))
  {
    hide Accounted, Ordered, Counted, CallersLocked, NotifierPending, RefusedOnlyAfterDrop, Final, Delivered;
    EndBorrows(s, t, fate);
    AccountedEnd(s, t, fate);
    OrderedSettle(s.log, s.sends[t].msg.ticket, fate);
  }

  lemma FirstCheckKept<T>(s: State<T>, t: nat)
    requires Inv(s) && CanStepSend(s, t) && s.sends[t].pc == FirstCheck
    ensures Inv(DoStepSend(s, t))
  {
    hide Accounted, Ordered, Flow, Final;
    if s.shared.receiverActive {
      AccountedAt(s, t, WantLock);
      PendingKept(s.sends, DoStepSend(s, t).sends, t);
    } else {
      EndKept(s, t, Refused(s.sends[t].msg.value));
    }
  }

  lemma WantLockKept<T>(s: State<T>, t: nat)
    requires Inv(s) && CanStepSend(s, t) && s.sends[t].pc == WantLock
    ensures Inv(DoStepSend(s, t))
  {
    hide Accounted, Ordered, Flow, Final;
    AccountedAt(s, t, SecondCheck);
    PendingKept(s.sends, DoStepSend(s, t).sends, t);
  }

  lemma SecondCheckKept<T>(s: State<T>, t: nat)
    requires Inv(s) && CanStepSend(s, t) && s.sends[t].pc == SecondCheck
    ensures Inv(DoStepSend(s, t))
  {
    hide Accounted, Ordered, Flow, Final;
    AccountedAt(s, t, DoStepSend(s, t).sends[t].pc);
    PendingKept(s.sends, DoStepSend(s, t).sends, t);
  }

  lemma PushKept<T>(s: State<T>, t: nat)
    requires Inv(s) && CanStepSend(s, t) && s.sends[t].pc == Push
    ensures Inv(DoStepSend(s, t))
  {
    hide Accounted, Ordered, Delivered;
    AccountedPush(s, t);
    OrderedPush(s, t);
    assert HasPushed(DoStepSend(s, t).sends[t].pc);
  }

  lemma UnlockKept<T>(s: State<T>, t: nat)
    requires Inv(s) && CanStepSend(s, t) && s.sends[t].pc == Unlock
    ensures Inv(DoStepSend(s, t))
  {
    hide Accounted, Ordered, Flow, Final;
    AccountedAt(s, t, Notify);
    assert HasPushed(DoStepSend(s, t).sends[t].pc);
  }

  lemma NotifyKept<T>(s: State<T>, t: nat)
    requires Inv(s) && CanStepSend(s, t) && s.sends[t].pc == Notify
    ensures Inv(DoStepSend(s, t))
  {
  }

  lemma RefusingKept<T>(s: State<T>, t: nat)
    requires Inv(s) && CanStepSend(s, t) && s.sends[t].pc == Refusing
    ensures Inv(DoStepSend(s, t))
  {
    AccountedEnd(s, t, Refused(s.sends[t].msg.value));
    OrderedSettle(s.log, s.sends[t].msg.ticket, Refused(s.sends[t].msg.value));
    PendingKept(s.sends, DoStepSend(s, t).sends, t);
  }

  lemma LockingKept<T>(s: State<T>)
    requires Inv(s) && CanStepRecv(s) && s.recv.Locking?
    ensures Inv(DoStepRecv(s))
  {
  }

  lemma PoppingKept<T>(s: State<T>)
    requires Inv(s) && CanStepRecv(s) && s.recv.Popping?
    ensures Inv(DoStepRecv(s))
  {
  }

  lemma MissedKept<T>(s: State<T>)
    requires Inv(s) && CanStepRecv(s) && s.recv.Missed?
    ensures Inv(DoStepRecv(s))
  {
  }

  lemma RegisteringKept<T>(s: State<T>)
    requires Inv(s) && CanStepRecv(s) && s.recv.Registering?
    ensures Inv(DoStepRecv(s))
  {
  }

  lemma ReleasingKept<T>(s: State<T>)
    requires Inv(s) && CanStepRecv(s) && s.recv.Releasing?
    ensures Inv(DoStepRecv(s))
  {
  }

  lemma RelockingKept<T>(s: State<T>)
    requires Inv(s) && CanStepRecv(s) && s.recv.Relocking?
    ensures Inv(DoStepRecv(s))
  {
  }

  lemma ReturningKept<T>(s: State<T>)
    requires Inv(s) && CanStepRecv(s) && s.recv.Returning?
    ensures Inv(DoStepRecv(s))
  {
    DeliveredAppend(s.log.reports, s.recv.report);
  }

  lemma LeavingKept<T>(s: State<T>)
    requires Inv(s) && CanStepRecv(s) && s.recv.Leaving?
    ensures Inv(DoStepRecv(s))
  {
  }

  lemma BeginSendBorrows<T>(s: State<T>, t: nat, h: nat, v: T)
    requires Counted(s.handles, s.sends) && CallersLocked(s.shared.lock, s.sends) && CanBeginSend(s, t, h)
    ensures var s' := DoBeginSend(s, t, h, v);
      Counted(s.handles, s'.sends) && CallersLocked(s.shared.lock, s'.sends) &&
      (NotifierPending(s.sends) ==> NotifierPending(s'.sends))
  {
    if NotifierPending(s.sends) {
      var u :| u in s.sends && HasPushed(s.sends[u].pc);
      assert u in DoBeginSend(s, t, h, v).sends && HasPushed(DoBeginSend(s, t, h, v).sends[u].pc);
    }
  }

  lemma BeginSendKept<T>(s: State<T>, t: nat, h: nat, v: T)
    requires Inv(s) && Enabled(s, BeginSend(t, h, v))
    ensures Inv(Apply(s, BeginSend(t, h, v)))
  {
    AccountedBegin(s, t, h, v);
    OrderedBegin(s, t, h, v);
    BeginSendBorrows(s, t, h, v);
  }

  lemma AbandonSendKept<T>(s: State<T>, t: nat)
    requires Inv(s) && Enabled(s, AbandonSend(t))
    ensures Inv(Apply(s, AbandonSend(t)))
  {
    hide Inv;
    EndKept(s, t, Abandoned);
  }

  lemma CloneKept<T>(s: State<T>, h: nat)
    requires Inv(s) && Enabled(s, Clone(h))
    ensures Inv(Apply(s, Clone(h)))
  {
  }

  lemma DropKept<T>(s: State<T>, h: nat)
    requires Inv(s) && Enabled(s, Drop(h))
    ensures Inv(Apply(s, Drop(h)))
  {
  }

  lemma StepDropKept<T>(s: State<T>)
    requires Inv(s) && Enabled(s, StepDrop)
    ensures Inv(Apply(s, StepDrop))
  {
  }

  lemma BeginRecvKept<T>(s: State<T>, mode: Mode)
    requires Inv(s) && Enabled(s, BeginRecv(mode))
    ensures Inv(Apply(s, BeginRecv(mode)))
  {
  }

  lemma LockTimeoutKept<T>(s: State<T>)
    requires Inv(s) && Enabled(s, LockTimeout)
    ensures Inv(Apply(s, LockTimeout))
  {
    DeliveredAppend(s.log.reports, Timeout(true));
  }

  lemma WakeKept<T>(s: State<T>, timedOut: bool)
    requires Inv(s) && Enabled(s, Wake(timedOut))
    ensures Inv(Apply(s, Wake(timedOut)))
  {
  }

  lemma AbandonKept<T>(s: State<T>)
    requires Inv(s) && Enabled(s, Abandon)
    ensures Inv(Apply(s, Abandon))
  {
  }

  lemma DropReceiverKept<T>(s: State<T>)
    requires Inv(s) && Enabled(s, DropReceiver)
    ensures Inv(Apply(s, DropReceiver))
  {
  }

  lemma SendKept<T>(s: State<T>, t: nat)
    requires Inv(s) && CanStepSend(s, t)
    ensures Inv(DoStepSend(s, t))
  {
    match s.sends[t].pc
    case FirstCheck => FirstCheckKept(s, t);
    case WantLock => WantLockKept(s, t);
    case SecondCheck => SecondCheckKept(s, t);
    case Push => PushKept(s, t);
    case Unlock => UnlockKept(s, t);
    case Notify => NotifyKept(s, t);
    case Refusing => RefusingKept(s, t);
  }

  lemma RecvKept<T>(s: State<T>)
    requires Inv(s) && CanStepRecv(s)
    ensures Inv(DoStepRecv(s))
  {
    match s.recv
    case Locking(_) => LockingKept(s);
    case Popping(_) => PoppingKept(s);
    case Missed(_) => MissedKept(s);
    case Registering(_) => RegisteringKept(s);
    case Releasing(_) => ReleasingKept(s);
    case Relocking(_, _) => RelockingKept(s);
    case Returning(_) => ReturningKept(s);
    case _ => LeavingKept(s);
  }

  /** No action of any thread breaks the invariant. */
  lemma StepKeepsInv<T>(s: State<T>, a: Action<T>)
    requires Inv(s) && Enabled(s, a)
    ensures Inv(Apply(s, a))
  {
    match a
    case BeginSend(t, h, v) => BeginSendKept(s, t, h, v);
    case StepSend(t) => SendKept(s, t);
    case AbandonSend(t) => AbandonSendKept(s, t);
    case Clone(h) => CloneKept(s, h);
    case Drop(h) => DropKept(s, h);
    case StepDrop => StepDropKept(s);
    case BeginRecv(mode) => BeginRecvKept(s, mode);
    case StepRecv => RecvKept(s);
    case LockTimeout => LockTimeoutKept(s);
    case Wake(timedOut) => WakeKept(s, timedOut);
    case Abandon => AbandonKept(s);
    case DropReceiver => DropReceiverKept(s);
  }

  /** Every interleaving keeps it. */
  lemma {:induction false} RunKeepsInv<T>(run: seq<Action<T>>)
    ensures var r := Perform(run); r.Some? ==> Inv(r.value)
  {
    if run != [] && Perform(run).Some? {
      RunKeepsInv(run[..|run| - 1]);
      StepKeepsInv(Perform(run[..|run| - 1]).value, run[|run| - 1]);
    }
  }
}
