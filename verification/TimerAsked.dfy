/** What the native timers were asked for, read off the run itself: the calls of
    `Driver::arm` in the order they drew their ids, each with the time it read. */
module TimerAsked {
  import opened Wrappers
  import opened Machine
  import opened TimerQueue
  import opened TimerDriver

  /** One `arm(dur, wake)`, and the clock when it asked for the time. */
  datatype Ask = Ask(thread: nat, dur: nat, wake: nat, start: Option<int>)

  function Clock(run: seq<Action>): nat {
    if run == [] then 0
    else Clock(run[..|run| - 1]) + if run[|run| - 1].Tick? then run[|run| - 1].elapsed else 0
  }

  /** The call of `thread` that began last reads the clock. */
  function Started(asks: seq<Ask>, thread: nat, clock: int): seq<Ask> {
    if asks == [] then []
    else
      var last := asks[|asks| - 1];
      if last.thread == thread then asks[..|asks| - 1] + [last.(start := Some(clock))]
      else Started(asks[..|asks| - 1], thread, clock) + [last]
  }

  /** The calls of a run; the one at index `k` drew the id `k + 1`. */
  function Asks(run: seq<Action>): seq<Ask> {
    if run == [] then []
    else
      var init, a := run[..|run| - 1], run[|run| - 1];
      match a
      case TakeId(thread, dur, wake) => Asks(init) + [Ask(thread, dur, wake, None)]
      case ReadDeadline(thread) => Started(Asks(init), thread, Clock(init))
      case _ => Asks(init)
  }

  /** Where a call is, it is with what it was asked. */
  ghost predicate ArmingAsAsked(arming: map<nat, Arming>, asks: seq<Ask>) {
    forall t :: t in arming ==>
      var m := arming[t];
      && 1 <= m.id <= |asks| && asks[m.id - 1].thread == t && asks[m.id - 1].wake == m.wake
      && (m.HasId? ==> asks[m.id - 1].dur == m.dur)
      && (m.HasDeadline? ==> asks[m.id - 1].start == Some(m.deadline - asks[m.id - 1].dur))
      && forall k :: m.id <= k < |asks| ==> asks[k].thread != t
  }

  ghost predicate ArmedAsAsked(armed: map<nat, Armed>, asks: seq<Ask>) {
    forall id :: id in armed ==>
      && 1 <= id <= |asks|
      && armed[id].wake == asks[id - 1].wake
      && asks[id - 1].start == Some(armed[id].deadline - asks[id - 1].dur)
  }

  ghost predicate FiredByNow(fired: map<nat, int>, clock: int) {
    forall id :: id in fired ==> fired[id] <= clock
  }

  ghost predicate AsAsked(s: State, asks: seq<Ask>, clock: int) {
    && s.clock == clock && s.nextId == |asks| + 1
    && ArmingAsAsked(s.arming, asks) && ArmedAsAsked(s.armed, asks)
    && FiredByNow(s.fired, clock)
  }

  lemma {:induction false} StartedAt(asks: seq<Ask>, thread: nat, clock: int, k: nat)
    requires k < |asks| && asks[k].thread == thread && forall i :: k < i < |asks| ==> asks[i].thread != thread
    ensures Started(asks, thread, clock) == asks[k := asks[k].(start := Some(clock))]
  {
    if k < |asks| - 1 {
      StartedAt(asks[..|asks| - 1], thread, clock, k);
    }
  }

  lemma TakeIdAsAsked(s: State, asks: seq<Ask>, clock: int, t: nat, dur: nat, wake: nat)
    requires AsAsked(s, asks, clock) && Enabled(s, TakeId(t, dur, wake))
    ensures AsAsked(Apply(s, TakeId(t, dur, wake)), asks + [Ask(t, dur, wake, None)], clock)
  {
  }

  lemma ReadAsAsked(s: State, asks: seq<Ask>, clock: int, t: nat)
    requires Inv(s) && AsAsked(s, asks, clock) && Enabled(s, ReadDeadline(t))
    ensures AsAsked(Apply(s, ReadDeadline(t)), Started(asks, t, clock), clock)
  {
    hide Agrees, OnePlace, WokenAreFired, SleepsSafely, AwaitsOne, Started;
    var id := s.arming[t].id;
    StartedAt(asks, t, clock, id - 1);
    ReadArming(s.arming, asks, clock, t);
    ReadArmed(s.armed, asks, clock, id);
    hide ArmingAsAsked, ArmedAsAsked, FreshIds;
  }

  lemma ReadArming(arming: map<nat, Arming>, asks: seq<Ask>, clock: int, t: nat)
    requires ArmingAsAsked(arming, asks) && t in arming && arming[t].HasId?
    ensures var m := arming[t];
      ArmingAsAsked(arming[t := HasDeadline(m.id, clock + m.dur, m.wake)], asks[m.id - 1 := asks[m.id - 1].(start := Some(clock))])
  {
  }

  lemma ReadArmed(armed: map<nat, Armed>, asks: seq<Ask>, clock: int, id: nat)
    requires ArmedAsAsked(armed, asks) && id !in armed && 1 <= id <= |asks|
    ensures ArmedAsAsked(armed, asks[id - 1 := asks[id - 1].(start := Some(clock))])
  {
  }

  lemma InsertAsAsked(s: State, asks: seq<Ask>, clock: int, t: nat)
    requires AsAsked(s, asks, clock) && Enabled(s, Insert(t))
    ensures AsAsked(Apply(s, Insert(t)), asks, clock)
  {
    hide HeapPush;
  }

  lemma OthersAsAsked(s: State, a: Action, asks: seq<Ask>, clock: int)
    requires AsAsked(s, asks, clock) && Enabled(s, a) && !a.TakeId? && !a.ReadDeadline? && !a.Insert?
    ensures AsAsked(Apply(s, a), asks, clock + if a.Tick? then a.elapsed else 0)
  {
    hide HeapAfter, PendingAfter, Decide, ArmingAsAsked, ArmedAsAsked;
  }

  lemma {:induction false} RunAsAsked(run: seq<Action>)
    requires Perform(run).Some?
    ensures AsAsked(Perform(run).value, Asks(run), Clock(run))
  {
    if run != [] {
      hide AsAsked, Enabled, Apply, Inv, Started;
      var init, a := run[..|run| - 1], run[|run| - 1];
      RunAsAsked(init);
      RunKeepsInv(init);
      var s, asks, clock := Perform(init).value, Asks(init), Clock(init);
      match a
      case TakeId(t, dur, wake) => TakeIdAsAsked(s, asks, clock, t, dur, wake);
      case ReadDeadline(t) => ReadAsAsked(s, asks, clock, t);
      case Insert(t) => InsertAsAsked(s, asks, clock, t);
      case _ => OthersAsAsked(s, a, asks, clock);
    }
  }

  /** Every timer in the queue's history is one that was asked for: its deadline is the
      duration asked, counted from when its call read the clock, and its wake is the one
      given. */
  lemma ArmedForTheDurationAsked(run: seq<Action>, id: nat)
    requires Perform(run).Some? && id in Perform(run).value.armed
    ensures 1 <= id <= |Asks(run)|
    ensures var ask := Asks(run)[id - 1];
      ask.start.Some? && Perform(run).value.armed[id] == Armed(ask.wake, ask.start.value + ask.dur)
  {
    RunAsAsked(run);
  }

  /** So no timer is fired or woken until its whole duration has passed since its call read
      the clock, and the wake that is called is the one its call was given. */
  lemma NeverWokenEarly(run: seq<Action>, id: nat)
    requires Perform(run).Some?
    requires var s := Perform(run).value; id in s.fired || id in s.woken || (s.driver.Waking? && s.driver.id == id)
    ensures 1 <= id <= |Asks(run)| && Asks(run)[id - 1].start.Some?
    ensures var s := Perform(run).value; var ask := Asks(run)[id - 1];
      && ask.start.value + ask.dur <= Clock(run)
      && (s.driver.Waking? && s.driver.id == id ==> s.driver.wake == ask.wake)
  {
    RunKeepsInv(run);
    RunAsAsked(run);
    hide Perform, Agrees, FreshIds, SleepsSafely, AwaitsOne;
    var s := Perform(run).value;
    assert id in s.fired && id in s.armed;
    ArmedForTheDurationAsked(run, id);
  }

  /** A cancellation left alone takes its timer out, and no other, and has a sleeping driver
      look again. */
  lemma ACancelAlone(run: seq<Action>, id: nat) returns (longer: seq<Action>)
    requires Perform(run).Some? && LockFree(Perform(run).value) && id in Perform(run).value.pending
    ensures longer == run + [Remove(id), NotifyCancel] && Perform(longer).Some?
    ensures var s := Perform(run).value; var t := Perform(longer).value;
      && t.pending == s.pending - {id} && t.canceled == s.canceled + {id} && t.notifying == s.notifying
      && t.driver != Asleep && !t.driver.AsleepUntil?
      && t.armed == s.armed && t.fired == s.fired && t.woken == s.woken
  {
    var t := Perform(run).value;
    longer, t := OneMore(Init(), Next, run, t, Remove(id));
    longer, t := OneMore(Init(), Next, longer, t, NotifyCancel);
  }

  /** And nobody is forgotten: a call left alone has its timer pending, for the duration
      asked from now, with the wake it was given, and no driver left asleep over it. */
  lemma AnArmAlone(run: seq<Action>, thread: nat, dur: nat, wake: nat) returns (longer: seq<Action>)
    requires Perform(run).Some?
    requires thread !in Perform(run).value.arming && LockFree(Perform(run).value)
    ensures longer == run + [TakeId(thread, dur, wake), ReadDeadline(thread), Insert(thread)] && Perform(longer).Some?
    ensures var s := Perform(run).value; var t := Perform(longer).value; var id := s.nextId;
      && t.nextId == id + 1 && t.clock == s.clock && t.arming == s.arming
      && t.pending == s.pending[id := wake] && t.armed == s.armed[id := Armed(wake, s.clock + dur)]
      && t.driver != Asleep && !t.driver.AsleepUntil?
      && t.fired == s.fired && t.woken == s.woken && t.canceled == s.canceled
  {
    hide HeapPush;
    var s := Perform(run).value;
    var t := s;
    longer, t := OneMore(Init(), Next, run, t, TakeId(thread, dur, wake));
    longer, t := OneMore(Init(), Next, longer, t, ReadDeadline(thread));
    longer, t := OneMore(Init(), Next, longer, t, Insert(thread));
    assert t.arming == s.arming;
  }
}
