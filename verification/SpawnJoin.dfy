/** `spawn` and `join` of `stdlib.rs`: a channel with one sender handle, moved into
    the spawned thread, which sends the closure's result once and is dropped after. */
module SpawnJoin {
  import opened Wrappers
  import opened Machine
  import opened Channel
  import opened ChannelInvariant

  predicate Allowed<T>(s: State<T>, a: Action<T>) {
    Enabled(s, a) &&
    match a
    case BeginSend(thread, _, _) => thread == 0 && s.log.calls == []
    case AbandonSend(_) => false
    case Clone(_) => false
    case Drop(_) => s.log.calls != [] && s.sends == map[]
    case BeginRecv(mode) => mode == Untimed && s.log.reports == []
    case _ => true
  }

  function NextAllowed<T>(s: State<T>, a: Action<T>): Option<State<T>> {
    if Allowed(s, a) then Some(Apply(s, a)) else None
  }

  function PerformAllowed<T>(run: seq<Action<T>>): Option<State<T>> {
    From(Init(), NextAllowed, run)
  }

  /** One call, which runs to its end before the handle is dropped. */
  ghost predicate OneSend<T>(calls: seq<Call<T>>, live: set<nat>, sends: map<nat, Send<T>>) {
    && |calls| <= 1
    && (calls == [] ==> sends == map[])
    && (calls != [] ==> calls[0].fate != Abandoned)
    && (live == {} ==> calls != [] && sends == map[])
  }

  /** One receive, which has reported nothing but a value. */
  predicate OneReceive<T>(recv: RecvPc<T>, reports: seq<Report<T>>) {
    && (reports == [] || (|reports| == 1 && reports[0].Received?))
    && match recv
       case Idle => true
       case Leaving => true
       case Gone => true
       case Returning(report) => report.Received? && reports == []
       case Relocking(mode, timedOut) => mode == Untimed && !timedOut && reports == []
       case _ => recv.mode == Untimed && reports == []
  }

  ghost predicate JoinInv<T>(s: State<T>) {
    && Inv(s)
    && OneSend(s.log.calls, s.handles.live, s.sends)
    && OneReceive(s.recv, s.log.reports)
  }

  lemma OneSendSteps<T>(s: State<T>, t: nat)
    requires JoinInv(s) && CanStepSend(s, t)
    ensures var s' := DoStepSend(s, t); OneSend(s'.log.calls, s'.handles.live, s'.sends)
  {
    hide Ordered, Flow, Final, ValueAwake, EndAwake, CallersLocked, OthersLocked, RefusedOnlyAfterDrop, OneReceive;
    assert s.log.calls != [] && s.handles.live != {};
    match s.sends[t].pc
    case FirstCheck =>
    case Push =>
    case Refusing =>
    case _ =>
  }

  lemma OneSendKept<T>(s: State<T>, a: Action<T>)
    requires JoinInv(s) && Allowed(s, a)
    ensures var s' := Apply(s, a); OneSend(s'.log.calls, s'.handles.live, s'.sends)
  {
    hide Accounted, Ordered, Flow, Final, ValueAwake, EndAwake, CallersLocked, OthersLocked, RefusedOnlyAfterDrop, OneReceive;
    match a
    case StepSend(t) => OneSendSteps(s, t);
    case Drop(h) =>
    case BeginSend(t, h, v) =>
    case StepRecv =>
      var s' := Apply(s, a);
      assert s'.log.calls == s.log.calls && s'.handles.live == s.handles.live && s'.sends == s.sends;
    case StepDrop =>
    case _ =>
  }

  /** The receive cannot report the end: by then the one value is queued or was received. */
  lemma OneReceiveSteps<T>(s: State<T>)
    requires JoinInv(s) && CanStepRecv(s)
    ensures var s' := DoStepRecv(s); OneReceive(s'.recv, s'.log.reports)
  {
    hide Ordered, CallersLocked, OthersLocked, EndAwake, Final;
    assert s.log.reports == [] ==> Delivered(s.log.reports) == [];
  }

  lemma OneReceiveKept<T>(s: State<T>, a: Action<T>)
    requires JoinInv(s) && Allowed(s, a)
    ensures var s' := Apply(s, a); OneReceive(s'.recv, s'.log.reports)
  {
    hide Accounted, Ordered, Flow, ValueAwake, EndAwake, CallersLocked, OthersLocked, RefusedOnlyAfterDrop, Delivered;
    match a
    case StepSend(t) =>
      var s' := Apply(s, a);
      assert s'.recv == s.recv && s'.log.reports == s.log.reports;
    case StepRecv => OneReceiveSteps(s);
    case StepDrop =>
    case _ =>
  }

  lemma JoinStep<T>(s: State<T>, a: Action<T>)
    requires JoinInv(s) && Allowed(s, a)
    ensures JoinInv(Apply(s, a))
  {
    StepKeepsInv(s, a);
    OneSendKept(s, a);
    OneReceiveKept(s, a);
  }

  lemma {:induction false} JoinRuns<T>(run: seq<Action<T>>)
    ensures var r := PerformAllowed(run); r.Some? ==> JoinInv(r.value)
  {
    if run != [] && PerformAllowed(run).Some? {
      JoinRuns(run[..|run| - 1]);
      JoinStep(PerformAllowed(run[..|run| - 1]).value, run[|run| - 1]);
    }
  }

  /** The `expect` in `join` never fires: whatever its receive returned is the value
      the spawned thread sent. */
  lemma JoinGetsTheResult<T>(run: seq<Action<T>>, i: nat)
    requires PerformAllowed(run).Some? && i < |PerformAllowed(run).value.log.reports|
    ensures var s := PerformAllowed(run).value;
      |s.log.calls| == 1 && s.log.reports[i] == Received(Msg(0, s.log.calls[0].value))
  {
    JoinRuns(run);
    hide PerformAllowed;
    ReportIsTheSend(PerformAllowed(run).value, i);
  }

  lemma ReportIsTheSend<T>(s: State<T>, i: nat)
    requires JoinInv(s) && i < |s.log.reports|
    ensures |s.log.calls| == 1 && s.log.reports[i] == Received(Msg(0, s.log.calls[0].value))
  {
    hide Counted, CallersLocked, OthersLocked, ReceiverFlags, ValueAwake, EndAwake, Ordered, Final, RefusedOnlyAfterDrop,
         CallHolds;
    assert s.log.reports[..0] == [];
    assert Delivered(s.log.reports) == [s.log.reports[0].msg];
    assert s.log.pushed[0] == s.log.reports[0].msg;
  }
}
