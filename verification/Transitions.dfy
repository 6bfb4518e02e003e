/** Runs of a step relation, and the two inductions every protocol here uses:
    an invariant holds all along a run, and a decreasing measure bounds its length. Then the
    state a schedule leads to, when each of its entries gives one thread a turn. */
module Transitions {

  ghost predicate Run<S(!new)>(start: S, step: (S, S) -> bool, states: seq<S>) {
    && |states| > 0
    && states[0] == start
    && forall k :: 0 <= k < |states| - 1 ==> step(states[k], states[k + 1])
  }

  ghost predicate Preserved<S(!new)>(inv: S -> bool, step: (S, S) -> bool) {
    forall s, s' :: inv(s) && step(s, s') ==> inv(s')
  }

  lemma {:induction false} InvariantAlongRun<S(!new)>(
      start: S, step: (S, S) -> bool, inv: S -> bool, states: seq<S>, k: nat)
    requires Run(start, step, states) && inv(start) && Preserved(inv, step)
    requires k < |states|
    ensures inv(states[k])
  {
    if k > 0 {
      InvariantAlongRun(start, step, inv, states, k - 1);
      assert step(states[k - 1], states[k - 1 + 1]);
    }
  }

  /** Every step pays at least one unit of the measure, so the steps taken and what is left
      of the measure never exceed what the run started with. */
  lemma {:induction false} MeasureBoundsRun<S(!new)>(
      start: S, step: (S, S) -> bool, inv: S -> bool, measure: S -> int, states: seq<S>, k: nat)
    requires Run(start, step, states) && inv(start) && Preserved(inv, step)
    requires forall s, s' :: inv(s) && step(s, s') ==> measure(s') < measure(s)
    requires k < |states|
    ensures k + measure(states[k]) <= measure(start)
  {
    if k > 0 {
      MeasureBoundsRun(start, step, inv, measure, states, k - 1);
      InvariantAlongRun(start, step, inv, states, k - 1);
      assert step(states[k - 1], states[k - 1 + 1]);
    }
  }

  lemma RunExtends<S(!new)>(start: S, step: (S, S) -> bool, states: seq<S>, next: S)
    requires Run(start, step, states) && step(states[|states| - 1], next)
    ensures Run(start, step, states + [next])
  {
    var longer := states + [next];
    forall k | 0 <= k < |longer| - 1 ensures step(longer[k], longer[k + 1]) {
      if k < |states| - 1 {
        assert step(states[k], states[k + 1]);
      }
    }
  }

  /** The state after a turn for each entry of the schedule, the first entry first. */
  function After<S, T>(start: S, turn: (S, T) -> S, schedule: seq<T>): S {
    if schedule == [] then start
    else turn(After(start, turn, schedule[..|schedule| - 1]), schedule[|schedule| - 1])
  }

  lemma OneMoreTurn<S, T>(start: S, turn: (S, T) -> S, schedule: seq<T>, t: T)
    ensures After(start, turn, schedule + [t]) == turn(After(start, turn, schedule), t)
  {
    assert (schedule + [t])[..|schedule|] == schedule;
  }

  lemma ThreeTurns<S, T>(start: S, turn: (S, T) -> S, t: T)
    ensures After(start, turn, [t, t, t]) == turn(turn(turn(start, t), t), t)
  {
    assert [] + [t] == [t] && [t] + [t] == [t, t] && [t, t] + [t] == [t, t, t];
    OneMoreTurn(start, turn, [], t);
    OneMoreTurn(start, turn, [t], t);
    OneMoreTurn(start, turn, [t, t], t);
  }

  lemma FourMoreTurns<S, T>(start: S, turn: (S, T) -> S, schedule: seq<T>, t: T)
    ensures After(start, turn, schedule + [t] + [t] + [t] + [t])
            == turn(turn(turn(turn(After(start, turn, schedule), t), t), t), t)
  {
    OneMoreTurn(start, turn, schedule, t);
    OneMoreTurn(start, turn, schedule + [t], t);
    OneMoreTurn(start, turn, schedule + [t] + [t], t);
    OneMoreTurn(start, turn, schedule + [t] + [t] + [t], t);
  }

  lemma NextTurn<S, T>(start: S, turn: (S, T) -> S, schedule: seq<T>, k: nat)
    requires k < |schedule|
    ensures After(start, turn, schedule[..k + 1]) == turn(After(start, turn, schedule[..k]), schedule[k])
    ensures schedule[..|schedule|] == schedule
  {
    assert schedule[..k + 1] == schedule[..k] + [schedule[k]];
    OneMoreTurn(start, turn, schedule[..k], schedule[k]);
  }

  /** If a turn is a step or no change, a run leads to the state after any schedule. */
  lemma {:induction false} AfterIsReached<S(!new), T(!new)>(
      start: S, step: (S, S) -> bool, turn: (S, T) -> S, schedule: seq<T>)
    returns (states: seq<S>)
    requires forall s, t :: turn(s, t) == s || step(s, turn(s, t))
    ensures Run(start, step, states) && states[|states| - 1] == After(start, turn, schedule)
  {
    if schedule == [] {
      states := [start];
    } else {
      var shorter := schedule[..|schedule| - 1];
      states := AfterIsReached(start, step, turn, shorter);
      var last, next := After(start, turn, shorter), After(start, turn, schedule);
      if next != last {
        RunExtends(start, step, states, next);
        states := states + [next];
      }
    }
  }
}
