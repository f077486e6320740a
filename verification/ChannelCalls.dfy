/** What one receive and one send come to, by what the caller asked for: in every
    interleaving, and when left alone. */
module ChannelCalls {
  import opened Wrappers
  import opened Machine
  import opened Channel
  import opened ChannelInvariant
  import opened ChannelTheorems

  // ---- receives, by mode ----

  /** What a receive may come back with: only `try_recv` finds the channel empty, and only
      a timed receive times out. */
  predicate MayAnswer<T>(r: Report<T>, mode: Mode) {
    match r
    case Received(_) => true
    case Disconnected => true
    case Empty => mode == Try
    case Timeout(_) => mode == Timed
  }

  /** Where a receive in `mode` can be; `try_recv` never waits. */
  predicate InMode<T>(recv: RecvPc<T>, mode: Mode) {
    match recv
    case Locking(m) => m == mode
    case Popping(m) => m == mode
    case Missed(m) => m == mode
    case Registering(m) => m == mode != Try
    case Releasing(m) => m == mode != Try
    case Parked(m) => m == mode != Try
    case Relocking(m, timedOut) => m == mode != Try && (timedOut ==> mode == Timed)
    case Returning(r) => MayAnswer(r, mode)
    case _ => true
  }

  predicate AtRest<T>(recv: RecvPc<T>) {
    recv == Idle || recv == Leaving || recv == Gone
  }

  /** A receive begun in `mode`, and what may follow it, when `before` had been reported. */
  ghost predicate Answering<T>(s: State<T>, before: seq<Report<T>>, mode: Mode) {
    if s.log.reports == before then InMode(s.recv, mode)
    else
      && |s.log.reports| == |before| + 1 && s.log.reports[..|before|] == before
      && MayAnswer(s.log.reports[|before|], mode)
      && AtRest(s.recv)
  }

  lemma AnsweringKept<T>(s: State<T>, a: Action<T>, before: seq<Report<T>>, mode: Mode)
    requires Enabled(s, a) && !a.BeginRecv? && Answering(s, before, mode)
    ensures Answering(Apply(s, a), before, mode)
  {
    var t := Apply(s, a);
    if t.log.reports != s.log.reports {
      assert s.log.reports == before;
      assert t.log.reports[..|before|] == before;
    }
  }

  lemma AnsweringBegins<T>(s: State<T>, mode: Mode)
    requires s.recv == Idle
    ensures Answering(Apply(s, BeginRecv(mode)), s.log.reports, mode)
  {
  }

  /** In every interleaving, whatever the call does after its beginning: it reports once at
      the most, only what its mode allows, and waits only if its mode does. */
  lemma {:induction false} AReceiveAnswersItsMode<T>(run: seq<Action<T>>, mode: Mode, more: seq<Action<T>>)
    requires Perform(run).Some? && Perform(run + [BeginRecv(mode)] + more).Some? && NoOtherCall(more)
    ensures Answering(Perform(run + [BeginRecv(mode)] + more).value, Perform(run).value.log.reports, mode)
  {
    hide Answering, Apply;
    var begun := run + [BeginRecv(mode)];
    if more == [] {
      assert begun + more == begun && begun[..|run|] == run;
      AnsweringBegins(Perform(run).value, mode);
    } else {
      var init, a := more[..|more| - 1], more[|more| - 1];
      assert (begun + more)[..|begun + more| - 1] == begun + init;
      AReceiveAnswersItsMode(run, mode, init);
      AnsweringKept(Perform(begun + init).value, a, Perform(run).value.log.reports, mode);
    }
  }

  /** The mode of the receive last begun. */
  function LastMode<T>(run: seq<Action<T>>): Mode {
    if run == [] then Try
    else if run[|run| - 1].BeginRecv? then run[|run| - 1].mode
    else LastMode(run[..|run| - 1])
  }

  /** In every reachable state the receive under way is where its mode allows it to be:
      none in mode `Try` waits, is about to, or is back from a wait. */
  lemma {:induction false} TryNeverWaits<T>(run: seq<Action<T>>)
    requires Perform(run).Some?
    ensures InMode(Perform(run).value.recv, LastMode(run))
    ensures var recv := Perform(run).value.recv;
      recv.Registering? || recv.Releasing? || recv.Parked? || recv.Relocking? ==> recv.mode == LastMode(run) != Try
  {
    hide Apply;
    if run != [] {
      var init, a := run[..|run| - 1], run[|run| - 1];
      TryNeverWaits(init);
      InModeKept(Perform(init).value, a, LastMode(init));
    }
  }

  lemma InModeKept<T>(s: State<T>, a: Action<T>, mode: Mode)
    requires Enabled(s, a) && InMode(s.recv, mode)
    ensures InMode(Apply(s, a).recv, if a.BeginRecv? then a.mode else mode)
  {
  }

  /** What was so when an answer was settled on. */
  ghost predicate Found<T>(s: State<T>, t: State<T>, r: Report<T>) {
    match r
    case Received(msg) => s.shared.queue == [msg] + t.shared.queue && t.log.received == s.log.received + [msg]
    case Disconnected => s.shared.queue == [] && s.handles.count == 0
    case Empty => s.shared.queue == [] && s.handles.count > 0 && s.recv == Missed(Try)
    case Timeout(inLock) => !inLock && s.recv == Relocking(Timed, true)
  }

  /** Every answer is true when it is settled on, with the lock held: a value is the oldest
      queued, `Disconnected` means no value and no sender, `Empty` no value and a sender. */
  lemma AnAnswerIsWhatWasFound<T>(run: seq<Action<T>>, a: Action<T>)
    requires Perform(run).Some? && Enabled(Perform(run).value, a)
    ensures var s := Perform(run).value; var t := Apply(s, a);
      t.recv.Returning? && t.recv != s.recv ==> Found(s, t, t.recv.report) && t.shared.lock == ByReceiver
  {
    RunKeepsInv(run);
    TryNeverWaits(run);
    var s := Perform(run).value;
    hide Perform, InMode, Accounted, Ordered, Flow, Final, EndAwake, RefusedOnlyAfterDrop, CallersLocked, ValueAwake;
    if Apply(s, a).recv.Returning? && Apply(s, a).recv != s.recv {
      if s.recv.Missed? {
        MissedNothing(s);
      }
      FoundByStep(s, LastMode(run));
    }
  }

  lemma MissedNothing<T>(s: State<T>)
    requires Inv(s) && s.recv.Missed?
    ensures s.shared.queue == [] && s.shared.lock == ByReceiver && s.handles.count >= 0
  {
    hide Accounted, Ordered, Flow, Final, EndAwake, RefusedOnlyAfterDrop, CallersLocked;
  }

  lemma FoundByStep<T>(s: State<T>, mode: Mode)
    requires Inv(s) && InMode(s.recv, mode) && CanStepRecv(s) && !s.recv.Returning?
    requires s.recv.Missed? ==> s.shared.queue == []
    ensures var t := DoStepRecv(s); t.recv.Returning? ==> Found(s, t, t.recv.report) && t.shared.lock == ByReceiver
  {
    hide Accounted, Ordered, Flow, Final, EndAwake, ValueAwake, RefusedOnlyAfterDrop, CallersLocked;
    if s.recv.Popping? && s.shared.queue != [] {
      assert s.shared.queue == [s.shared.queue[0]] + s.shared.queue[1..];
    }
  }

  // ---- a receive left alone ----

  /** What a receive nobody disturbs comes to: the oldest value, the end, `Empty` at once
      for `try_recv`, and a wait for the others. */
  function Answered<T>(s: State<T>, mode: Mode): State<T> {
    if s.shared.queue != [] then
      var msg := s.shared.queue[0];
      s.(shared := s.shared.(queue := s.shared.queue[1..]),
         log := s.log.(received := s.log.received + [msg], reports := s.log.reports + [Received(msg)]))
    else if s.handles.count == 0 then s.(log := s.log.(reports := s.log.reports + [Disconnected]))
    else if mode == Try then s.(log := s.log.(reports := s.log.reports + [Empty]))
    else s.(recv := Parked(mode), shared := s.shared.(waiter := Registered))
  }

  lemma AReceiveAlone<T>(run: seq<Action<T>>, mode: Mode) returns (longer: seq<Action<T>>)
    requires Perform(run).Some?
    requires Perform(run).value.recv == Idle && Perform(run).value.shared.lock == Free
    ensures run <= longer && Perform(longer) == Some(Answered(Perform(run).value, mode))
  {
    var before := Perform(run).value;
    var s := before;
    longer := run;
    longer, s := OneMore(Init(), Next, longer, s, BeginRecv(mode));
    longer, s := OneMore(Init(), Next, longer, s, StepRecv);
    longer := LookAlone(longer, before, mode);
  }

  /** From the look on. */
  lemma LookAlone<T>(run: seq<Action<T>>, before: State<T>, mode: Mode) returns (longer: seq<Action<T>>)
    requires before.recv == Idle && before.shared.lock == Free
    requires Perform(run) == Some(before.(recv := Popping(mode), shared := before.shared.(lock := ByReceiver)))
    ensures run <= longer && Perform(longer) == Some(Answered(before, mode))
  {
    var s := Perform(run).value;
    longer, s := OneMore(Init(), Next, run, s, StepRecv);
    if before.shared.queue == [] {
      longer := MissAlone(longer, before, mode);
    } else {
      longer, s := OneMore(Init(), Next, longer, s, StepRecv);
      assert s == Answered(before, mode);
    }
  }

  /** From the look at the count on. */
  lemma MissAlone<T>(run: seq<Action<T>>, before: State<T>, mode: Mode) returns (longer: seq<Action<T>>)
    requires before.recv == Idle && before.shared.lock == Free && before.shared.queue == []
    requires Perform(run) == Some(before.(recv := Missed(mode), shared := before.shared.(lock := ByReceiver)))
    ensures run <= longer && Perform(longer) == Some(Answered(before, mode))
  {
    var s := Perform(run).value;
    longer, s := OneMore(Init(), Next, run, s, StepRecv);
    if before.handles.count != 0 && mode != Try {
      longer, s := OneMore(Init(), Next, longer, s, StepRecv);
    }
    longer, s := OneMore(Init(), Next, longer, s, StepRecv);
    assert s == Answered(before, mode);
  }

  /** A wait that ends: timed out, it is reported; otherwise the receive looks again. */
  lemma AWaitAlone<T>(run: seq<Action<T>>, timedOut: bool) returns (longer: seq<Action<T>>)
    requires Perform(run).Some? && Perform(run).value.recv.Parked? && Perform(run).value.shared.lock == Free
    requires timedOut ==> Perform(run).value.recv.mode == Timed
    ensures var s := Perform(run).value; var back := s.(recv := Idle, shared := s.shared.(waiter := Absent));
      && run <= longer
      && Perform(longer) ==
         Some(if timedOut then back.(log := s.log.(reports := s.log.reports + [Timeout(false)])) else Answered(back, s.recv.mode))
  {
    var before := Perform(run).value;
    var back := before.(recv := Idle, shared := before.shared.(waiter := Absent));
    var s := before;
    longer := run;
    longer, s := OneMore(Init(), Next, longer, s, Wake(timedOut));
    longer, s := OneMore(Init(), Next, longer, s, StepRecv);
    if timedOut {
      longer, s := OneMore(Init(), Next, longer, s, StepRecv);
    } else {
      longer := LookAlone(longer, back, before.recv.mode);
    }
  }

  // ---- sends ----

  /** What a send nobody disturbs comes to: with the receiver there, its value is the last
      in the queue and a waiting receiver notified; without, it has its value back. */
  function Sent<T>(s: State<T>, thread: nat, value: T): State<T> {
    if s.shared.receiverActive then
      var msg := Msg(|s.log.calls|, value);
      s.(shared := s.shared.(queue := s.shared.queue + [msg],
                             waiter := if s.shared.waiter == Registered then Notified else s.shared.waiter),
         log := s.log.(calls := s.log.calls + [Call(thread, value, Pushed(|s.log.pushed|))], pushed := s.log.pushed + [msg]))
    else s.(log := s.log.(calls := s.log.calls + [Call(thread, value, Refused(value))]))
  }

  lemma ASendAlone<T>(run: seq<Action<T>>, thread: nat, handle: nat, value: T) returns (longer: seq<Action<T>>)
    requires Perform(run).Some? && thread !in Perform(run).value.sends && handle in Perform(run).value.handles.live
    requires Perform(run).value.shared.lock == Free
    ensures run <= longer && Perform(longer) == Some(Sent(Perform(run).value, thread, value))
    ensures !Perform(run).value.shared.receiverActive ==> longer == run + [BeginSend(thread, handle, value), StepSend(thread)]
  {
    var before := Perform(run).value;
    var s := before;
    longer := run;
    longer, s := OneMore(Init(), Next, longer, s, BeginSend(thread, handle, value));
    longer, s := OneMore(Init(), Next, longer, s, StepSend(thread));
    if before.shared.receiverActive {
      longer, s := OneMore(Init(), Next, longer, s, StepSend(thread));
      longer, s := OneMore(Init(), Next, longer, s, StepSend(thread));
      longer, s := OneMore(Init(), Next, longer, s, StepSend(thread));
      longer, s := OneMore(Init(), Next, longer, s, StepSend(thread));
      longer, s := OneMore(Init(), Next, longer, s, StepSend(thread));
    }
    assert s.sends == before.sends;
    assert s.log.calls == Sent(before, thread, value).log.calls;
    assert s.shared == Sent(before, thread, value).shared;
  }

  /** A clone is a handle like any other: the channel stays open when its original goes,
      and it can send. */
  lemma ACloneStandsIn<T>(run: seq<Action<T>>, handle: nat, thread: nat, value: T) returns (longer: seq<Action<T>>)
    requires Perform(run).Some? && CanDrop(Perform(run).value, handle) && thread !in Perform(run).value.sends
    ensures longer == run + [Clone(handle), Drop(handle)] && Perform(longer).Some?
    ensures var s := Perform(run).value; var t := Perform(longer).value; var clone := s.handles.next;
      && clone !in s.handles.live && t.handles.live == s.handles.live - {handle} + {clone}
      && t.handles.count == s.handles.count > 0
      && Enabled(t, BeginSend(thread, clone, value))
  {
    RunKeepsInv(run);
    var s := Perform(run).value;
    hide Accounted, Ordered, Flow, Final, EndAwake, ValueAwake, RefusedOnlyAfterDrop, OthersLocked, CallersLocked;
    longer, s := OneMore(Init(), Next, run, s, Clone(handle));
    longer, s := OneMore(Init(), Next, longer, s, Drop(handle));
  }

  // ---- sends and the drop of the receiver ----

  /** A call that is in the log from `k` on, as a send is that looks for the first time when
      the receiver is gone: not past that look, or refused with its own value. */
  ghost predicate TooLate<T>(s: State<T>, k: nat, thread: nat, value: T) {
    && k < |s.log.calls| && s.log.calls[k].from == thread && s.log.calls[k].value == value
    && (|| s.log.calls[k].fate == Refused(value)
        || (s.log.calls[k].fate == Running && thread in s.sends && s.sends[thread].pc == FirstCheck && s.sends[thread].msg == Msg(k, value)))
  }

  /** What is pushed from `before` on, when the receiver is gone: the value of the caller
      that was past its second look then, if there was one, and nothing more. */
  ghost predicate OnlyPushers<T>(before: State<T>, s: State<T>) {
    && !s.shared.receiverActive
    && if s.log.pushed == before.log.pushed then
         forall t :: t in s.sends && s.sends[t].pc == Push ==> t in before.sends && before.sends[t] == s.sends[t]
       else
         && (exists t :: t in before.sends && before.sends[t].pc == Push && s.log.pushed == before.log.pushed + [before.sends[t].msg])
         && (forall t :: t in s.sends ==> s.sends[t].pc != Push)
  }

  lemma GoneStays<T>(s: State<T>, a: Action<T>)
    requires Inv(s) && Enabled(s, a) && !s.shared.receiverActive
    ensures !Apply(s, a).shared.receiverActive
  {
    hide Inv, ReceiverFlags;
  }

  lemma OnlyPushersKept<T>(before: State<T>, s: State<T>, a: Action<T>)
    requires Inv(s) && Enabled(s, a) && OnlyPushers(before, s)
    ensures OnlyPushers(before, Apply(s, a))
  {
    hide Accounted, Ordered, Flow, Final, EndAwake, ValueAwake, RefusedOnlyAfterDrop, OthersLocked, Counted;
    GoneStays(s, a);
    if a.StepSend? && s.sends[a.thread].pc == Push {
      assert s.log.pushed == before.log.pushed;
      assert before.sends[a.thread] == s.sends[a.thread];
    }
  }

  lemma TooLateKept<T>(s: State<T>, a: Action<T>, k: nat, thread: nat, value: T)
    requires Inv(s) && Enabled(s, a) && !s.shared.receiverActive && TooLate(s, k, thread, value)
    ensures TooLate(Apply(s, a), k, thread, value)
  {
    hide Ordered, Flow, Final, EndAwake, ValueAwake, RefusedOnlyAfterDrop, OthersLocked, Counted, CallersLocked, FateHolds;
    match a
    case StepSend(t) => TooLateUnderSends(s, t, k, thread, value);
    case BeginSend(t, _, _) => assert t == thread ==> s.log.calls[k].fate == Refused(value);
    case _ =>
  }

  lemma TooLateUnderSends<T>(s: State<T>, t: nat, k: nat, thread: nat, value: T)
    requires Accounted(s.log.calls, s.log.pushed, s.sends)
    requires CanStepSend(s, t) && !s.shared.receiverActive && TooLate(s, k, thread, value)
    ensures TooLate(DoStepSend(s, t), k, thread, value)
  {
    hide FateHolds;
    assert CallHolds(t, s.sends[t], s.log.calls);
    assert s.sends[t].msg.ticket == k ==> t == thread && (HasPushed(s.sends[t].pc) || s.sends[t].pc == FirstCheck);
  }

  /** Once the receiver is gone, one more value is pushed at the most, in every
      interleaving: by the caller that had already looked twice and holds the lock. */
  lemma {:induction false} OnlyTheLookedPush<T>(run: seq<Action<T>>, more: seq<Action<T>>)
    requires Perform(run).Some? && !Perform(run).value.shared.receiverActive && Perform(run + more).Some?
    ensures OnlyPushers(Perform(run).value, Perform(run + more).value)
  {
    hide OnlyPushers, Apply, Inv;
    if more == [] {
      assert run + more == run;
      NobodyPushedYet(Perform(run).value);
    } else {
      var init, a := more[..|more| - 1], more[|more| - 1];
      assert (run + more)[..|run + more| - 1] == run + init;
      OnlyTheLookedPush(run, init);
      RunKeepsInv(run + init);
      OnlyPushersKept(Perform(run).value, Perform(run + init).value, a);
    }
  }

  lemma NobodyPushedYet<T>(s: State<T>)
    requires !s.shared.receiverActive
    ensures OnlyPushers(s, s)
  {
  }

  /** So a call is accepted after the drop only if its second look came before it. */
  lemma AcceptedLateHadLooked<T>(run: seq<Action<T>>, more: seq<Action<T>>, k: nat)
    requires Perform(run).Some? && !Perform(run).value.shared.receiverActive && Perform(run + more).Some?
    requires k < |Perform(run + more).value.log.calls| && Perform(run + more).value.log.calls[k].fate.Pushed?
    ensures var s := Perform(run).value;
      || Perform(run + more).value.log.calls[k].fate.index < |s.log.pushed|
      || exists t :: t in s.sends && s.sends[t].pc == Push && s.sends[t].msg.ticket == k
  {
    OnlyTheLookedPush(run, more);
    RunKeepsInv(run + more);
    hide Perform;
  }

  /** A send begun when the receiver is gone is refused by its first step, gets its own value
      back, and nothing anyone does meanwhile can have it accepted. */
  lemma {:induction false} ALateSendIsRefused<T>(run: seq<Action<T>>, thread: nat, handle: nat, value: T, more: seq<Action<T>>)
    requires Perform(run).Some? && !Perform(run).value.shared.receiverActive
    requires Perform(run + [BeginSend(thread, handle, value)] + more).Some?
    ensures var k := |Perform(run).value.log.calls|; var s := Perform(run + [BeginSend(thread, handle, value)] + more).value;
      && TooLate(s, k, thread, value)
      && (StepSend(thread) in more ==> s.log.calls[k].fate == Refused(value))
  {
    var begun := run + [BeginSend(thread, handle, value)];
    var k := |Perform(run).value.log.calls|;
    hide TooLate, Apply, Inv;
    if more == [] {
      assert begun + more == begun && begun[..|run|] == run;
      LateBegins(Perform(run).value, thread, handle, value);
    } else {
      var init, a := more[..|more| - 1], more[|more| - 1];
      assert (begun + more)[..|begun + more| - 1] == begun + init;
      ALateSendIsRefused(run, thread, handle, value, init);
      RunKeepsInv(begun + init);
      assert begun + init == run + ([BeginSend(thread, handle, value)] + init);
      OnlyTheLookedPush(run, [BeginSend(thread, handle, value)] + init);
      var s := Perform(begun + init).value;
      StillGone(Perform(run).value, s);
      TooLateKept(s, a, k, thread, value);
      if a == StepSend(thread) {
        FirstLookRefuses(s, k, thread, value);
      } else if StepSend(thread) in more {
        assert more == init + [a];
        RefusedStays(s, a, k, thread, value);
      }
    }
  }

  lemma StillGone<T>(before: State<T>, s: State<T>)
    requires OnlyPushers(before, s)
    ensures !s.shared.receiverActive
  {
  }

  lemma LateBegins<T>(s: State<T>, thread: nat, handle: nat, value: T)
    requires Enabled(s, BeginSend(thread, handle, value))
    ensures TooLate(Apply(s, BeginSend(thread, handle, value)), |s.log.calls|, thread, value)
  {
  }

  lemma FirstLookRefuses<T>(s: State<T>, k: nat, thread: nat, value: T)
    requires Inv(s) && Enabled(s, StepSend(thread)) && !s.shared.receiverActive && TooLate(s, k, thread, value)
    ensures TooLate(Apply(s, StepSend(thread)), k, thread, value)
    ensures Apply(s, StepSend(thread)).log.calls[k].fate == Refused(value)
  {
    TooLateKept(s, StepSend(thread), k, thread, value);
    hide Ordered, Flow, Final, EndAwake, ValueAwake, RefusedOnlyAfterDrop, OthersLocked, Counted, CallersLocked;
  }

  lemma RefusedStays<T>(s: State<T>, a: Action<T>, k: nat, thread: nat, value: T)
    requires Inv(s) && Enabled(s, a) && k < |s.log.calls| && s.log.calls[k].fate == Refused(value)
    ensures k < |Apply(s, a).log.calls| && Apply(s, a).log.calls[k].fate == Refused(value)
  {
    hide Ordered, Flow, Final, EndAwake, ValueAwake, RefusedOnlyAfterDrop, OthersLocked, Counted, CallersLocked;
  }

  /** And none is refused while the receiver is there. */
  lemma RefusedOnlyWhenGone<T>(run: seq<Action<T>>, k: nat)
    requires Perform(run).Some? && k < |Perform(run).value.log.calls| && Perform(run).value.log.calls[k].fate.Refused?
    ensures !Perform(run).value.shared.receiverActive
  {
    RunKeepsInv(run);
  }
}
