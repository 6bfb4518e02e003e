/** Lecture8/mutex/main.c: the same increments inside a mutex. Any number of threads. */
module MutexCounter {
  import opened Options
  import opened Totals
  import opened Transitions

  datatype Pc = Lock | Read | Write | Unlock

  datatype Worker = Worker(pc: Pc, val: int, done: nat)

  datatype State = State(nloop: nat, counter: int, owner: Option<nat>, workers: seq<Worker>)

  function Initial(nloop: nat, m: nat): State {
    State(nloop, 0, None, seq(m, _ => Worker(Lock, 0, 0)))
  }

  predicate Enabled(s: State, t: nat) {
    && t < |s.workers|
    && s.workers[t].done < s.nloop
    && (s.workers[t].pc == Lock ==> s.owner == None)
  }

  function Next(s: State, t: nat): State
    requires Enabled(s, t)
  {
    var w := s.workers[t];
    match w.pc
    case Lock => Move(s, t, w.(pc := Read)).(owner := Some(t))
    case Read => Move(s, t, w.(pc := Write, val := s.counter))
    case Write => Move(s, t, w.(pc := Unlock)).(counter := w.val + 1)
    case Unlock => Move(s, t, w.(pc := Lock, done := w.done + 1)).(owner := None)
  }

  function Move(s: State, t: nat, w: Worker): State
    requires t < |s.workers|
  {
    s.(workers := s.workers[t := w])
  }

  ghost predicate Step(s: State, s': State) {
    exists t :: Enabled(s, t) && s' == Next(s, t)
  }

  /** A turn of the scheduler for a thread: its next step, or nothing if it is blocked. */
  function Turn(s: State, t: nat): State {
    if Enabled(s, t) then Next(s, t) else s
  }

  /** Increments a thread has stored. */
  function Stored(w: Worker): nat {
    w.done + if w.pc == Unlock then 1 else 0
  }

  ghost predicate Inv(s: State) {
    && (s.owner.Some? ==> s.owner.value < |s.workers| && s.workers[s.owner.value].pc != Lock)
    && (forall t :: 0 <= t < |s.workers| ==>
          && (s.workers[t].pc != Lock ==> s.owner == Some(t) && s.workers[t].done < s.nloop)
          && s.workers[t].done <= s.nloop
          && (s.workers[t].pc == Write ==> s.workers[t].val == s.counter))
    && s.counter == Total(s.workers, Stored)
  }

  lemma StepKeepsInv(s: State, t: nat)
    requires Inv(s) && Enabled(s, t)
    ensures Inv(Next(s, t))
  {
    TotalAfterUpdate(s.workers, t, Next(s, t).workers[t], Stored);
  }

  function StepsLeftOf(nloop: nat): Worker -> nat {
    (w: Worker) =>
      var left := 4 * (nloop - w.done) - match w.pc case Lock => 0 case Read => 1 case Write => 2 case Unlock => 3;
      if left < 0 then 0 else left
  }

  function StepsLeft(s: State): int {
    Total(s.workers, StepsLeftOf(s.nloop))
  }

  lemma StepCostsOne(s: State, t: nat)
    requires Inv(s) && Enabled(s, t)
    ensures StepsLeft(Next(s, t)) == StepsLeft(s) - 1
  {
    TotalAfterUpdate(s.workers, t, Next(s, t).workers[t], StepsLeftOf(s.nloop));
  }

  ghost predicate InvFor(nloop: nat, m: nat, s: State) {
    Inv(s) && s.nloop == nloop && |s.workers| == m
  }

  lemma NobodyStuckBeforeTheEnd(s: State)
    requires Inv(s) && forall t: nat :: !Enabled(s, t)
    ensures s.owner == None && forall w :: w in s.workers ==> Stored(w) == s.nloop
  {
    if s.owner.Some? {
      assert Enabled(s, s.owner.value);
    }
    forall t: nat | t < |s.workers| ensures Stored(s.workers[t]) == s.nloop {
      assert !Enabled(s, t);
    }
  }

  /** With the mutex every run has at most four steps per increment, and a run that cannot be
      extended leaves exactly one increment per round of every thread. */
  lemma EveryRunCountsExactly(nloop: nat, m: nat, states: seq<State>)
    requires Run(Initial(nloop, m), Step, states)
    ensures |states| - 1 <= m * (4 * nloop)
    ensures var last := states[|states| - 1];
            (forall t: nat :: !Enabled(last, t)) ==> last.counter == m * nloop
  {
    var s0 := Initial(nloop, m);
    var inv := (s: State) => InvFor(nloop, m, s);
    forall s, s' | InvFor(nloop, m, s) && Step(s, s')
      ensures InvFor(nloop, m, s') && StepsLeft(s') < StepsLeft(s)
    {
      var t: nat :| Enabled(s, t) && s' == Next(s, t);
      StepKeepsInv(s, t);
      StepCostsOne(s, t);
    }
    TotalOfEqualWeights(s0.workers, Stored, 0);
    TotalOfEqualWeights(s0.workers, StepsLeftOf(nloop), 4 * nloop);
    MeasureBoundsRun(s0, Step, inv, StepsLeft, states, |states| - 1);
    InvariantAlongRun(s0, Step, inv, states, |states| - 1);
    var last := states[|states| - 1];
    if forall t: nat :: !Enabled(last, t) {
      NobodyStuckBeforeTheEnd(last);
      TotalOfEqualWeights(last.workers, Stored, nloop);
    }
  }

  lemma RunKeepsInv(nloop: nat, m: nat, states: seq<State>, k: nat)
    requires Run(Initial(nloop, m), Step, states) && k < |states|
    ensures InvFor(nloop, m, states[k])
  {
    forall s, s' | InvFor(nloop, m, s) && Step(s, s') ensures InvFor(nloop, m, s') {
      var t: nat :| Enabled(s, t) && s' == Next(s, t);
      StepKeepsInv(s, t);
    }
    TotalOfEqualWeights(Initial(nloop, m).workers, Stored, 0);
    InvariantAlongRun(Initial(nloop, m), Step, (s: State) => InvFor(nloop, m, s), states, k);
  }

  /** A thread with rounds left waits exactly at the lock while another one is behind it. */
  lemma EveryStateWaitsExactly(nloop: nat, m: nat, states: seq<State>, k: nat, t: nat)
    requires Run(Initial(nloop, m), Step, states) && k < |states|
    ensures var s := states[k];
            && |s.workers| == m
            && (Enabled(s, t) <==>
                  && t < m && s.workers[t].done < nloop
                  && (s.workers[t].pc == Lock ==> forall u :: 0 <= u < m ==> s.workers[u].pc == Lock))
  {
    RunKeepsInv(nloop, m, states, k);
  }

  /** The counter changes only in the hands of the owner of the mutex, by one, and a thread that
      finishes a round has given the mutex back. */
  lemma EffectsInOrder(s: State, t: nat)
    requires Inv(s) && Enabled(s, t)
    ensures var s' := Next(s, t);
            && (s'.counter != s.counter ==> s.owner == s'.owner == Some(t) && s'.counter == s.counter + 1)
            && (s'.workers[t].done != s.workers[t].done ==>
                  s.owner == Some(t) && s'.owner == None && s'.workers[t].done == s.workers[t].done + 1)
  {
    assert s.workers[t].pc != Lock ==> s.owner == Some(t);
  }

  /** The same steps in place. */
  class Counter {
    const nloop: nat
    var counter: int
    var owner: Option<nat>
    var workers: seq<Worker>

    function View(): State
      reads this
    {
      State(nloop, counter, owner, workers)
    }

    constructor (nloop: nat, m: nat)
      ensures View() == Initial(nloop, m)
    {
      this.nloop := nloop;
      counter := 0;
      owner := None;
      workers := seq(m, _ => Worker(Lock, 0, 0));
    }

    method DoIt(t: nat)
      requires Enabled(View(), t)
      modifies this
      ensures View() == Next(old(View()), t)
    {
      var w := workers[t];
      match w.pc {
        case Lock =>
          owner := Some(t);
          w := w.(pc := Read);
        case Read =>
          w := w.(pc := Write, val := counter);
        case Write =>
          counter := w.val + 1;
          w := w.(pc := Unlock);
        case Unlock =>
          owner := None;
          w := w.(pc := Lock, done := w.done + 1);
      }
      workers := workers[t := w];
    }
  }

  /** A scheduler: whatever the schedule, once nobody can move every round was counted. */
  method RunSchedule(nloop: nat, m: nat, schedule: seq<nat>) returns (c: Counter, ghost states: seq<State>)
    ensures c.View() == After(Initial(nloop, m), Turn, schedule)
    ensures Run(Initial(nloop, m), Step, states) && states[|states| - 1] == c.View()
    ensures (forall t: nat :: !Enabled(c.View(), t)) ==> c.counter == m * nloop
  {
    c := new Counter(nloop, m);
    states := [c.View()];
    for k := 0 to |schedule|
      invariant fresh(c) && c.View() == After(Initial(nloop, m), Turn, schedule[..k])
      invariant Run(Initial(nloop, m), Step, states) && states[|states| - 1] == c.View()
    {
      NextTurn(Initial(nloop, m), Turn, schedule, k);
      if Enabled(c.View(), schedule[k]) {
        ghost var before := c.View();
        c.DoIt(schedule[k]);
        assert Step(before, c.View());
        RunExtends(Initial(nloop, m), Step, states, c.View());
        states := states + [c.View()];
      }
    }
    assert schedule[..|schedule|] == schedule;
    EveryRunCountsExactly(nloop, m, states);
  }
}
