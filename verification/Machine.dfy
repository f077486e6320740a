/** Runs of a state machine: lists of actions, each possible in its turn. */
module Machine {
  import opened Wrappers

  /** The state after `run`, if `next` allowed every action when its turn came. */
  function From<S, A>(init: S, next: (S, A) -> Option<S>, run: seq<A>): Option<S> {
    if run == [] then Some(init)
    else
      var before := From(init, next, run[..|run| - 1]);
      if before.Some? then next(before.value, run[|run| - 1]) else None
  }

  lemma OneMore<S, A>(init: S, next: (S, A) -> Option<S>, run: seq<A>, s: S, a: A) returns (longer: seq<A>, s': S)
    requires From(init, next, run) == Some(s) && next(s, a).Some?
    ensures longer == run + [a] && Some(s') == next(s, a) && From(init, next, longer) == Some(s')
  {
    longer, s' := run + [a], next(s, a).value;
    assert longer[..|run|] == run;
  }
}
