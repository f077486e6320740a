/** The wasm timer registry of `sleep.rs`: wakes the host names by opaque `u32`
    tokens, drawn from a counter that wraps. */
module TimerTokens {
  import opened Wrappers

  const TOKENS: nat := 0x1_0000_0000

  ghost predicate Distinct<W>(timers: seq<(nat, W)>) {
    && (forall i :: 0 <= i < |timers| ==> 0 < timers[i].0 < TOKENS)
    && (forall i, j :: 0 <= i < j < |timers| ==> timers[i].0 != timers[j].0)
  }

  predicate Live<W>(timers: seq<(nat, W)>, token: nat) {
    exists i :: 0 <= i < |timers| && timers[i].0 == token
  }

  /** The registry as a map, whatever the order of its vector. */
  ghost function View<W>(timers: seq<(nat, W)>): map<nat, W> {
    if timers == [] then map[] else View(timers[..|timers| - 1])[timers[|timers| - 1].0 := timers[|timers| - 1].1]
  }

  lemma {:induction false} ViewHas<W>(timers: seq<(nat, W)>, i: nat)
    requires Distinct(timers) && i < |timers|
    ensures timers[i].0 in View(timers) && View(timers)[timers[i].0] == timers[i].1
  {
    if i < |timers| - 1 {
      ViewHas(timers[..|timers| - 1], i);
    }
  }

  lemma {:induction false} ViewHasOnly<W>(timers: seq<(nat, W)>, token: nat)
    ensures token in View(timers) ==> Live(timers, token)
  {
    if token in View(timers) {
      var last := |timers| - 1;
      if token == timers[last].0 {
        assert Live(timers, token);
      } else {
        ViewHasOnly(timers[..last], token);
        var i :| 0 <= i < last && timers[..last][i].0 == token;
        assert timers[i].0 == token;
      }
    }
  }

  lemma {:induction false} ViewCount<W>(timers: seq<(nat, W)>)
    requires Distinct(timers)
    ensures |View(timers).Keys| == |timers|
  {
    if timers != [] {
      var init, last := timers[..|timers| - 1], timers[|timers| - 1];
      ViewCount(init);
      ViewHasOnly(init, last.0);
      assert View(timers).Keys == View(init).Keys + {last.0};
    }
  }

  lemma ViewKeys<W>(timers: seq<(nat, W)>)
    requires Distinct(timers)
    ensures forall token :: token in View(timers) <==> Live(timers, token)
    ensures forall i :: 0 <= i < |timers| ==> timers[i].0 in View(timers) && View(timers)[timers[i].0] == timers[i].1
    ensures |View(timers).Keys| == |timers|
  {
    forall i | 0 <= i < |timers| ensures timers[i].0 in View(timers) && View(timers)[timers[i].0] == timers[i].1 {
      ViewHas(timers, i);
    }
    forall token: nat ensures token in View(timers) ==> Live(timers, token) {
      ViewHasOnly(timers, token);
    }
    ViewCount(timers);
  }

  /** Two registries with the same entries, in any order, are the same map. */
  lemma ViewByEntries<W>(timers: seq<(nat, W)>, m: map<nat, W>)
    requires Distinct(timers)
    requires forall i :: 0 <= i < |timers| ==> timers[i].0 in m && m[timers[i].0] == timers[i].1
    requires forall token :: token in m ==> Live(timers, token)
    ensures View(timers) == m
  {
    ViewKeys(timers);
    forall token | token in m ensures token in View(timers) && View(timers)[token] == m[token] {
      var i :| 0 <= i < |timers| && timers[i].0 == token;
    }
  }

  // ---- pigeonhole ----

  /** The numbers from 1 up to but not including `n`. */
  function NonZero(n: nat): set<nat> {
    if n <= 1 then {} else NonZero(n - 1) + {n - 1}
  }

  lemma {:induction false} NonZeroCount(n: nat)
    requires n > 0
    ensures |NonZero(n)| == n - 1
    ensures forall x :: x in NonZero(n) <==> 0 < x < n
  {
    if n > 1 {
      NonZeroCount(n - 1);
    }
  }

  lemma {:induction false} SubsetCount<T>(a: set<T>, b: set<T>)
    requires a <= b
    ensures |a| <= |b| && (|a| == |b| ==> a == b)
  {
    if a != {} {
      var x :| x in a;
      SubsetCount(a - {x}, b - {x});
    }
  }

  lemma AtMostFull<W>(timers: seq<(nat, W)>)
    requires Distinct(timers)
    ensures |timers| <= TOKENS - 1
  {
    ViewKeys(timers);
    NonZeroCount(TOKENS);
    SubsetCount(View(timers).Keys, NonZero(TOKENS));
  }

  /** Some token is free exactly when fewer than 2^32 - 1 timers are live. */
  lemma FreeTokenExists<W>(timers: seq<(nat, W)>)
    requires Distinct(timers)
    ensures (exists token :: 0 < token < TOKENS && !Live(timers, token)) <==> |timers| < TOKENS - 1
  {
    ViewKeys(timers);
    var live := View(timers).Keys;
    NonZeroCount(TOKENS);
    assert live <= NonZero(TOKENS);
    SubsetCount(live, NonZero(TOKENS));
    if |timers| < TOKENS - 1 {
      assert live != NonZero(TOKENS);
      var token :| token in NonZero(TOKENS) && token !in live;
      assert !Live(timers, token);
    } else {
      assert live == NonZero(TOKENS);
    }
  }

  // ---- the registry ----

  function SwapRemove<T>(s: seq<T>, i: nat): seq<T>
    requires i < |s|
  {
    s[i := s[|s| - 1]][..|s| - 1]
  }

  /** How far the counter has come round since it stood at `start`. */
  function Turn(start: nat, k: nat): nat { (start + k) % TOKENS }

  lemma TurnOn(start: nat, k: nat)
    ensures (Turn(start, k) + 1) % TOKENS == Turn(start, k + 1)
  {
  }

  /** The first `k` the counter comes to, from `start`, are zero or live. */
  ghost predicate NoneFree<W>(start: nat, timers: seq<(nat, W)>, k: nat) {
    forall j :: 0 <= j < k ==> Turn(start, j) == 0 || Live(timers, Turn(start, j))
  }

  lemma OneMoreTaken<W>(start: nat, timers: seq<(nat, W)>, k: nat)
    requires NoneFree(start, timers, k) && (Turn(start, k) == 0 || Live(timers, Turn(start, k)))
    ensures NoneFree(start, timers, k + 1)
  {
  }

  /** And `token` is the next. */
  ghost predicate FirstFree<W>(start: nat, timers: seq<(nat, W)>, token: nat, k: nat) {
    NoneFree(start, timers, k) && token == Turn(start, k) != 0 && !Live(timers, token)
  }

  /** Within one full turn of the counter, from wherever it stands, some token is free. */
  lemma SomeTurnIsFree<W>(start: nat, timers: seq<(nat, W)>)
    requires start < TOKENS && Distinct(timers) && |timers| < TOKENS - 1
    ensures exists k: nat :: k < TOKENS && Turn(start, k) != 0 && !Live(timers, Turn(start, k))
  {
    FreeTokenExists(timers);
    var token: nat :| 0 < token < TOKENS && !Live(timers, token);
    var k := if token >= start then token - start else token + TOKENS - start;
    assert Turn(start, k) == token;
  }

  lemma Added<W>(timers: seq<(nat, W)>, token: nat, wake: W)
    requires Distinct(timers) && 0 < token < TOKENS && !Live(timers, token)
    ensures Distinct(timers + [(token, wake)])
    ensures View(timers + [(token, wake)]) == View(timers)[token := wake]
  {
    assert (timers + [(token, wake)])[..|timers|] == timers;
  }

  class Registry<W> {
    var nextToken: nat              // the static NEXT_TOKEN
    var timers: seq<(nat, W)>       // the static TIMERS

    ghost predicate Valid()
      reads this
    {
      nextToken < TOKENS && Distinct(timers)
    }

    constructor ()
      ensures Valid() && timers == []
    {
      nextToken, timers := 1, [];
    }

    /** `Timer::new`: draw tokens until one is neither zero nor live. With every
        nonzero token live it would draw for ever; the caller keeps below that. */
    method Register(wake: W) returns (token: nat)
      requires Valid() && |timers| < TOKENS - 1
      modifies this
      ensures Valid()
      ensures 0 < token < TOKENS && !Live(old(timers), token)
      ensures exists k: nat :: FirstFree(old(nextToken), old(timers), token, k) && nextToken == Turn(old(nextToken), k + 1)
      ensures timers == old(timers) + [(token, wake)]
      ensures View(timers) == View(old(timers))[token := wake]
    {
      ghost var start, tried := nextToken, 0;
      SomeTurnIsFree(start, timers);
      ghost var free: nat :| Turn(start, free) != 0 && !Live(timers, Turn(start, free));
      while true
        invariant Valid() && timers == old(timers)
        invariant 0 <= tried <= free && nextToken == Turn(start, tried)
        invariant NoneFree(start, timers, tried)
        decreases free - tried
      {
        hide NoneFree, Live, View, Distinct;
        TurnOn(start, tried);
        var candidate := nextToken;
        nextToken := (nextToken + 1) % TOKENS;
        if candidate != 0 && !Live(timers, candidate) {
          assert FirstFree(start, timers, candidate, tried);
          Added(timers, candidate, wake);
          timers := timers + [(candidate, wake)];
          return candidate;
        }
        OneMoreTaken(start, timers, tried);
        tried := tried + 1;
      }
    }

    /** `take_timer`: hand the wake out and forget it; every other timer stays. */
    method Take(token: nat) returns (wake: Option<W>)
      requires Valid()
      modifies `timers
      ensures Valid()
      ensures wake == if token in View(old(timers)) then Some(View(old(timers))[token]) else None
      ensures View(timers) == View(old(timers)) - {token}
    {
      ViewKeys(timers);
      var position := 0;
      while position < |timers| && timers[position].0 != token
        invariant 0 <= position <= |timers|
        invariant forall i :: 0 <= i < position ==> timers[i].0 != token
      {
        position := position + 1;
      }
      if position == |timers| {
        return None;
      }
      wake := Some(timers[position].1);
      var rest := SwapRemove(timers, position);
      TakenOut(timers, position);
      timers := rest;
    }
  }

  lemma StaysDistinct<W>(timers: seq<(nat, W)>, position: nat)
    requires Distinct(timers) && position < |timers|
    ensures Distinct(SwapRemove(timers, position))
  {
    var rest, last := SwapRemove(timers, position), |timers| - 1;
    assert forall i :: 0 <= i < |rest| ==> rest[i] == timers[if i == position then last else i];
  }

  lemma TakenOut<W>(timers: seq<(nat, W)>, position: nat)
    requires Distinct(timers) && position < |timers|
    ensures Distinct(SwapRemove(timers, position))
    ensures View(SwapRemove(timers, position)) == View(timers) - {timers[position].0}
  {
    StaysDistinct(timers, position);
    ViewKeys(timers);
    hide View;
    var rest, last := SwapRemove(timers, position), |timers| - 1;
    var m := View(timers) - {timers[position].0};
    forall i | 0 <= i < |rest| ensures rest[i].0 in m && m[rest[i].0] == rest[i].1 {
      assert rest[i] == timers[if i == position then last else i];
    }
    forall token | token in m ensures Live(rest, token) {
      var i :| 0 <= i < |timers| && timers[i].0 == token;
      assert rest[if i == last then position else i].0 == token;
    }
    ViewByEntries(rest, m);
  }

  /** Each registered wake is handed out at most once: taking a token leaves nothing
      to take under it, until it is issued again. */
  method TakeTwice<W>(r: Registry<W>, token: nat) returns (first: Option<W>, second: Option<W>)
    requires r.Valid()
    modifies r
    ensures second == None
    ensures first.Some? <==> token in View(old(r.timers))
  {
    first := r.Take(token);
    second := r.Take(token);
  }
}

/** Whole lives of the registry: `Register` and `Take` in any order, tokens reused as the
    counter comes round. The wakes are the numbers of their registrations. `Drive` is the
    registry going through such a life. */
module TokenRuns {
  import opened Wrappers
  import opened Machine
  import opened TimerTokens

  datatype Event = Registered(token: nat) | Taken(token: nat)

  datatype State = State(live: map<nat, nat>, count: nat, handed: seq<nat>)

  /** A registration draws a token that is not live; any token at all may be taken. */
  predicate Possible(s: State, e: Event) {
    e.Registered? ==> 0 < e.token < TOKENS && e.token !in s.live
  }

  function Step(s: State, e: Event): State
    requires Possible(s, e)
  {
    match e
    case Registered(token) => State(s.live[token := s.count], s.count + 1, s.handed)
    case Taken(token) =>
      if token in s.live then State(s.live - {token}, s.count, s.handed + [s.live[token]]) else s
  }

  function Next(s: State, e: Event): Option<State> {
    if Possible(s, e) then Some(Step(s, e)) else None
  }

  function Run(events: seq<Event>): Option<State> {
    From(State(map[], 0, []), Next, events)
  }

  ghost predicate OnePlace(s: State) {
    && (forall token :: token in s.live ==> s.live[token] < s.count && s.live[token] !in s.handed)
    && (forall t, u :: t in s.live && u in s.live && t != u ==> s.live[t] != s.live[u])
    && (forall i :: 0 <= i < |s.handed| ==> s.handed[i] < s.count)
    && (forall i, j :: 0 <= i < j < |s.handed| ==> s.handed[i] != s.handed[j])
    && (forall k :: 0 <= k < s.count ==> k in s.handed || exists token :: token in s.live && s.live[token] == k)
  }

  lemma RegisteredKeeps(s: State, token: nat)
    requires OnePlace(s) && token !in s.live
    ensures OnePlace(State(s.live[token := s.count], s.count + 1, s.handed))
  {
    var live := s.live[token := s.count];
    forall k | 0 <= k < s.count + 1 && k !in s.handed ensures exists t :: t in live && live[t] == k {
      if k == s.count {
        assert live[token] == k;
      } else {
        var t :| t in s.live && s.live[t] == k;
        assert live[t] == k;
      }
    }
  }

  lemma TakenKeeps(s: State, token: nat)
    requires OnePlace(s) && token in s.live
    ensures OnePlace(State(s.live - {token}, s.count, s.handed + [s.live[token]]))
  {
    var live, handed := s.live - {token}, s.handed + [s.live[token]];
    assert handed[|s.handed|] == s.live[token];
    forall k | 0 <= k < s.count && k !in handed ensures exists t :: t in live && live[t] == k {
      assert forall i :: 0 <= i < |s.handed| ==> handed[i] == s.handed[i];
      var t :| t in s.live && s.live[t] == k;
      assert t != token;
      assert live[t] == k;
    }
  }

  lemma {:induction false} RunsKeepOnePlace(events: seq<Event>)
    ensures var r := Run(events); r.Some? ==> OnePlace(r.value)
  {
    if events != [] && Run(events).Some? {
      var s, e := Run(events[..|events| - 1]).value, events[|events| - 1];
      RunsKeepOnePlace(events[..|events| - 1]);
      if e.Registered? {
        RegisteredKeeps(s, e.token);
      } else if e.token in s.live {
        TakenKeeps(s, e.token);
      }
    }
  }

  /** Over any life of the registry, however often tokens are reused: each registered
      wake is handed out at most once, and until then it is live under exactly one token. */
  lemma EachWakeIsHandedOutOnce(events: seq<Event>, k: nat)
    requires Run(events).Some? && k < Run(events).value.count
    ensures var s := Run(events).value;
      && (forall i, j :: 0 <= i < j < |s.handed| ==> s.handed[i] != s.handed[j])
      && (k in s.handed <==> !exists token :: token in s.live && s.live[token] == k)
      && (forall t, u :: t in s.live && u in s.live && s.live[t] == k && s.live[u] == k ==> t == u)
  {
    RunsKeepOnePlace(events);
  }

  datatype Call = Register | Take(token: nat)

  /** The registry did what was called, in turn. */
  ghost predicate Answers(calls: seq<Call>, events: seq<Event>) {
    && |events| <= |calls|
    && forall i :: 0 <= i < |events| ==>
         (calls[i].Register? <==> events[i].Registered?) && (calls[i].Take? ==> calls[i].token == events[i].token)
  }

  lemma OneMoreAnswer(calls: seq<Call>, events: seq<Event>, e: Event)
    requires Answers(calls, events) && |events| < |calls|
    requires e == match calls[|events|] case Register => Registered(e.token) case Take(token) => Taken(token)
    ensures Answers(calls, events + [e])
  {
  }

  lemma NotInView(timers: seq<(nat, nat)>, token: nat)
    requires Distinct(timers) && !Live(timers, token)
    ensures token !in View(timers)
  {
    ViewKeys(timers);
  }

  lemma NoneTaken(live: map<nat, nat>, token: nat)
    ensures token !in live ==> live - {token} == live
  {
  }

  /** A new registry under any calls, until one would register with every token live: what
      happens is one of the runs above, its live timers are those in the registry, and no
      wake comes out twice. */
  method Drive(r: Registry<nat>, calls: seq<Call>) returns (handed: seq<nat>, ghost events: seq<Event>)
    requires r.Valid() && r.timers == []
    modifies r
    ensures r.Valid() && Answers(calls, events)
    ensures |events| < |calls| ==> calls[|events|].Register? && |r.timers| == TOKENS - 1
    ensures Run(events).Some? && View(r.timers) == Run(events).value.live && handed == Run(events).value.handed
    ensures forall i, j :: 0 <= i < j < |handed| ==> handed[i] != handed[j]
  {
    var next, count := 0, 0;
    handed, events := [], [];
    while next < |calls| && (calls[next].Take? || |r.timers| < TOKENS - 1)
      invariant r.Valid() && Answers(calls, events) && next == |events|
      invariant Run(events) == Some(State(View(r.timers), count, handed))
    {
      hide From, View, Distinct, Live, Answers, OnePlace;
      ghost var s, timers, event := Run(events).value, r.timers, Taken(0);
      match calls[next] {
        case Register =>
          var token := r.Register(count);
          event := Registered(token);
          NotInView(timers, token);
          count := count + 1;
        case Take(token) =>
          var wake := r.Take(token);
          event := Taken(token);
          NoneTaken(s.live, token);
          if wake.Some? {
            handed := handed + [wake.value];
          }
      }
      OneMoreAnswer(calls, events, event);
      events, s := OneMore(State(map[], 0, []), Next, events, s, event);
      next := next + 1;
    }
    RunsKeepOnePlace(events);
    AtMostFull(r.timers);
  }
}

/** `SleepAsync`: a sleep too long for one host timeout runs as a chain of legs. */
module SleepLegs {
  import opened Wrappers

  /** `MAX_TIMEOUT`: `i32::MAX` milliseconds, here in nanoseconds. */
  const MAX_TIMEOUT: nat := 2_147_483_647 * 1_000_000

  /** A host's timeout, in milliseconds, is a signed 32-bit number; `leg` is nanoseconds. */
  predicate HostTakes(leg: nat) {
    leg as real / 1_000_000.0 <= 0x7FFF_FFFF as real
  }

  /** No leg of a sleep is too long for a host timer, and none but the last could be longer. */
  lemma LegsAreTheLongestTaken(legs: seq<nat>, armed: seq<int>, done: seq<int>, inner: nat, remaining: nat, total: nat, i: nat)
    requires Chained(legs, armed, done, inner, remaining, total) && i < |legs|
    ensures HostTakes(legs[i])
    ensures i < |legs| - 1 || remaining > 0 ==> forall longer :: longer > legs[i] ==> !HostTakes(longer)
  {
    Milliseconds(legs[i]);
    forall longer | longer > legs[i] ensures legs[i] == MAX_TIMEOUT ==> !HostTakes(longer) {
      Milliseconds(longer);
    }
  }

  lemma Milliseconds(leg: nat)
    ensures HostTakes(leg) <==> leg <= MAX_TIMEOUT
  {
    var ms := leg as real / 1_000_000.0;
    assert ms * 1_000_000.0 == leg as real;
  }

  function Min(a: nat, b: nat): nat { if a < b then a else b }

  function Sum(legs: seq<nat>): nat {
    if legs == [] then 0 else Sum(legs[..|legs| - 1]) + legs[|legs| - 1]
  }

  lemma {:induction false} SumAppends(legs: seq<nat>, leg: nat)
    ensures Sum(legs + [leg]) == Sum(legs) + leg
  {
    assert (legs + [leg])[..|legs|] == legs;
  }

  /** Inner timers that never fire early: the one of `leg` armed at `armed`, polled at
      `at[0]`, and those that follow it, each armed when the one before was found ready. */
  ghost predicate NeverEarly(leg: nat, remaining: nat, armed: int, fired: seq<bool>, at: seq<int>)
    requires |fired| == |at|
    decreases |fired|
  {
    fired != [] && fired[0] ==>
      at[0] >= armed + leg && NeverEarly(Min(remaining, MAX_TIMEOUT), remaining - Min(remaining, MAX_TIMEOUT), at[0], fired[1..], at[1..])
  }

  /** The legs so far, when each was armed, and when each but the last was found ready:
      they add up, each is as long as can be but the last, and each follows on another. */
  ghost predicate Chained(legs: seq<nat>, armed: seq<int>, done: seq<int>, inner: nat, remaining: nat, total: nat): (c: bool)
    ensures c ==> |legs| == |armed| > 0
  {
    && |legs| == |armed| == |done| + 1
    && legs[|done|] == inner <= MAX_TIMEOUT
    && Sum(legs) + remaining == total
    && (forall i :: 0 <= i < |done| ==> legs[i] == MAX_TIMEOUT)
    && (remaining > 0 ==> inner == MAX_TIMEOUT)
    && (inner == 0 ==> total == 0)
    && (forall i :: 0 <= i < |done| ==> done[i] >= armed[i] + legs[i] && armed[i + 1] >= done[i])
  }

  lemma NextLeg(legs: seq<nat>, armed: seq<int>, done: seq<int>, inner: nat, remaining: nat, total: nat, now: int)
    requires Chained(legs, armed, done, inner, remaining, total)
    requires remaining > 0 && now >= armed[|armed| - 1] + inner
    ensures var next := Min(remaining, MAX_TIMEOUT);
      Chained(legs + [next], armed + [now], done + [now], next, remaining - next, total)
  {
    var next := Min(remaining, MAX_TIMEOUT);
    SumAppends(legs, next);
    var legs', armed', done' := legs + [next], armed + [now], done + [now];
    hide Sum;
    forall i | 0 <= i < |done'| ensures legs'[i] == MAX_TIMEOUT && done'[i] >= armed'[i] + legs'[i] && armed'[i + 1] >= done'[i] {
      if i < |done| {
        assert legs'[i] == legs[i] && done'[i] == done[i] && armed'[i] == armed[i] && armed'[i + 1] == armed[i + 1];
      }
    }
  }

  lemma LastLeg(legs: seq<nat>, armed: seq<int>, done: seq<int>, inner: nat, total: nat, now: int)
    requires Chained(legs, armed, done, inner, 0, total) && now >= armed[|armed| - 1] + inner
    ensures now >= armed[0] + total
  {
    SleepsAtLeast(legs, armed, done + [now]);
  }

  class SleepAsync {
    var inner: nat          // duration of the timer being awaited
    var remaining: nat
    ghost var legs: seq<nat>    // every timer armed so far, the current one last
    ghost var armed: seq<int>
    ghost var done: seq<int>
    ghost const total: nat

    ghost predicate Valid()
      reads this
    {
      Chained(legs, armed, done, inner, remaining, total)
    }

    constructor (dur: nat, now: int)
      ensures Valid() && total == dur && |legs| == 1 && armed == [now]
    {
      var first := Min(dur, MAX_TIMEOUT);
      inner, remaining, legs, armed, done, total := first, dur - first, [first], [now], [], dur;
      new;
      assert legs[..0] == [];
    }

    /** `poll`, where `fired` says for each poll of an inner timer made in this call
        whether it was ready, and `at` when. It polls no more inner timers than there are
        legs left; and it is ready no earlier than the whole duration after the start. */
    method Poll(fired: seq<bool>, at: seq<int>) returns (ready: bool, polls: nat)
      requires Valid() && |fired| == |at|
      requires |fired| > (remaining + MAX_TIMEOUT - 1) / MAX_TIMEOUT
      requires NeverEarly(inner, remaining, armed[|armed| - 1], fired, at)
      modifies this
      ensures Valid() && armed[0] == old(armed[0])
      ensures 1 <= polls <= |fired|
      ensures forall i :: 0 <= i < polls - 1 ==> fired[i]
      ensures ready == fired[polls - 1]
      ensures ready ==> remaining == 0 && at[polls - 1] >= armed[0] + total
      ensures |legs| == |old(legs)| + polls - 1 && old(legs) <= legs
    {
      hide Chained, Sum;
      polls := 0;
      while true
        invariant Valid() && armed[0] == old(armed[0])
        invariant polls < |fired| - (remaining + MAX_TIMEOUT - 1) / MAX_TIMEOUT
        invariant forall i :: 0 <= i < polls ==> fired[i]
        invariant NeverEarly(inner, remaining, armed[|armed| - 1], fired[polls..], at[polls..])
        invariant |legs| == |old(legs)| + polls && old(legs) <= legs
        decreases remaining
      {
        polls := polls + 1;
        if !fired[polls - 1] {
          return false, polls;
        }
        ghost var now := at[polls - 1];
        assert fired[polls - 1..][1..] == fired[polls..] && at[polls - 1..][1..] == at[polls..];
        if remaining == 0 {
          LastLeg(legs, armed, done, inner, total, now);
          return true, polls;
        }
        var next := Min(remaining, MAX_TIMEOUT);
        NextLeg(legs, armed, done, inner, remaining, total, now);
        OneLegFewer(remaining);
        remaining := remaining - next;
        inner := next;
        legs, armed, done := legs + [next], armed + [now], done + [now];
      }
    }
  }

  lemma OneLegFewer(remaining: nat)
    requires remaining > 0
    ensures var left := remaining - Min(remaining, MAX_TIMEOUT);
      (left + MAX_TIMEOUT - 1) / MAX_TIMEOUT == (remaining + MAX_TIMEOUT - 1) / MAX_TIMEOUT - 1
  {
  }

  /** If each leg is armed no earlier than the one before it fired, and fires no
      earlier than its duration after that, the whole sleep lasts at least the sum. */
  lemma {:induction false} SleepsAtLeast(legs: seq<nat>, armed: seq<int>, fired: seq<int>)
    requires |legs| == |armed| == |fired| > 0
    requires forall i :: 0 <= i < |legs| ==> fired[i] >= armed[i] + legs[i]
    requires forall i :: 0 < i < |legs| ==> armed[i] >= fired[i - 1]
    ensures fired[|legs| - 1] >= armed[0] + Sum(legs)
  {
    var n := |legs| - 1;
    if n > 0 {
      SleepsAtLeast(legs[..n], armed[..n], fired[..n]);
    } else {
      assert legs[..0] == [];
    }
  }
}
