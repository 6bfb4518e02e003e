/** Lecture8/non_mutex/main.c: two threads each do NLOOP unlocked increments, and every
    increment is a read of the global and a later write. */
module RaceCounter {
  import opened Transitions

  datatype Pc = Read | Write

  /** `done` counts the finished rounds of the loop. */
  datatype Worker = Worker(pc: Pc, val: int, done: nat)

  datatype Thread = A | B

  datatype State = State(nloop: nat, counter: int, a: Worker, b: Worker) {
    function Get(t: Thread): Worker {
      if t == A then a else b
    }

    function Set(t: Thread, w: Worker): State {
      if t == A then this.(a := w) else this.(b := w)
    }
  }

  function Initial(nloop: nat): State {
    State(nloop, 0, Worker(Read, 0, 0), Worker(Read, 0, 0))
  }

  predicate Enabled(s: State, t: Thread) {
    s.Get(t).done < s.nloop
  }

  function Next(s: State, t: Thread): State
    requires Enabled(s, t)
  {
    var w := s.Get(t);
    match w.pc
    case Read => s.Set(t, w.(pc := Write, val := s.counter))
    case Write => s.Set(t, w.(pc := Read, done := w.done + 1)).(counter := w.val + 1)
  }

  ghost predicate Step(s: State, s': State) {
    exists t :: Enabled(s, t) && s' == Next(s, t)
  }

  /** A turn of the scheduler for a thread: its next step, or nothing if it is blocked. */
  function Turn(s: State, t: Thread): State {
    if Enabled(s, t) then Next(s, t) else s
  }

  ghost predicate Reachable(nloop: nat, s: State) {
    exists states :: Run(Initial(nloop), Step, states) && states[|states| - 1] == s
  }

  predicate Finished(s: State) {
    s.a.done == s.nloop && s.b.done == s.nloop
  }

  /** Some interleaving ends with the counter at v. */
  ghost predicate CanEndWith(nloop: nat, v: int) {
    exists s :: Reachable(nloop, s) && Finished(s) && s.counter == v
  }

  // ---------------------------------------------------------------- bounds on every interleaving

  predicate WorkerInv(s: State, w: Worker) {
    && w.done <= s.nloop
    && (w.pc == Write ==>
          w.done < s.nloop && 0 <= w.val <= s.a.done + s.b.done && (w.done >= 1 ==> w.val >= 1))
  }

  ghost predicate Inv(s: State) {
    && WorkerInv(s, s.a) && WorkerInv(s, s.b)
    && 0 <= s.counter <= s.a.done + s.b.done
    && (s.a.done + s.b.done >= 1 ==> s.counter >= 1)
    && (Finished(s) && s.nloop >= 2 ==> s.counter >= 2)
  }

  lemma StepKeepsInv(s: State, s': State)
    requires Inv(s) && Step(s, s')
    ensures Inv(s') && s'.nloop == s.nloop
  {}

  ghost predicate InvFor(nloop: nat, s: State) {
    Inv(s) && s.nloop == nloop
  }

  lemma ReachableInv(nloop: nat, s: State)
    requires Reachable(nloop, s)
    ensures InvFor(nloop, s)
  {
    var states :| Run(Initial(nloop), Step, states) && states[|states| - 1] == s;
    forall s, s' | InvFor(nloop, s) && Step(s, s') ensures InvFor(nloop, s') {
      StepKeepsInv(s, s');
    }
    InvariantAlongRun(Initial(nloop), Step, (s: State) => InvFor(nloop, s), states, |states| - 1);
  }

  // ---------------------------------------------------------------- interleavings that reach them

  lemma ReachableStep(nloop: nat, s: State, t: Thread)
    requires Reachable(nloop, s) && Enabled(s, t)
    ensures Reachable(nloop, Next(s, t))
  {
    var states :| Run(Initial(nloop), Step, states) && states[|states| - 1] == s;
    var longer := states + [Next(s, t)];
    assert Step(s, Next(s, t));
    assert Run(Initial(nloop), Step, longer) && longer[|longer| - 1] == Next(s, t);
  }

  /** State s after thread t alone has done k whole rounds, from the top of its loop. */
  function Rounds(s: State, t: Thread, k: nat): State {
    if k == 0 then s
    else
      var before := Rounds(s, t, k - 1);
      before.Set(t, Worker(Read, before.counter, before.Get(t).done + 1)).(counter := before.counter + 1)
  }

  lemma {:induction false} RoundsReachable(nloop: nat, s: State, t: Thread, k: nat)
    requires Reachable(nloop, s) && s.Get(t).pc == Read && s.Get(t).done + k <= s.nloop
    ensures Reachable(nloop, Rounds(s, t, k))
    ensures var r := Rounds(s, t, k);
            && r.counter == s.counter + k && r.nloop == s.nloop
            && r.Get(t).pc == Read && r.Get(t).done == s.Get(t).done + k
            && (t == A ==> r.b == s.b) && (t == B ==> r.a == s.a)
  {
    if k > 0 {
      RoundsReachable(nloop, s, t, k - 1);
      var before := Rounds(s, t, k - 1);
      ReachableStep(nloop, before, t);
      ReachableStep(nloop, Next(before, t), t);
      assert Next(Next(before, t), t) == Rounds(s, t, k);
    }
  }

  /** A reads; B does all its rounds but one; A writes; B reads for its last round; A does the
      rest of its rounds; B writes. Only two increments since A's read survive. */
  lemma LoseAllButTwo(nloop: nat, s: State) returns (last: State)
    requires Reachable(nloop, s) && s.nloop == nloop
    requires s.a.pc == Read && s.b.pc == Read && s.a.done < nloop && s.b.done < nloop
    ensures Reachable(nloop, last) && Finished(last) && last.counter == s.counter + 2
  {
    ReachableStep(nloop, s, A);
    var s1 := Next(s, A);
    RoundsReachable(nloop, s1, B, nloop - 1 - s.b.done);
    var s2 := Rounds(s1, B, nloop - 1 - s.b.done);
    ReachableStep(nloop, s2, A);
    var s3 := Next(s2, A);
    ReachableStep(nloop, s3, B);
    var s4 := Next(s3, B);
    RoundsReachable(nloop, s4, A, nloop - 1 - s.a.done);
    var s5 := Rounds(s4, A, nloop - 1 - s.a.done);
    ReachableStep(nloop, s5, B);
    last := Next(s5, B);
  }

  lemma InitialReachable(nloop: nat)
    ensures Reachable(nloop, Initial(nloop))
  {
    assert Run(Initial(nloop), Step, [Initial(nloop)]);
  }

  lemma EndsWith(nloop: nat, v: int)
    requires nloop >= 1 && 2 <= v <= 2 * nloop
    ensures CanEndWith(nloop, v)
  {
    InitialReachable(nloop);
    var s0 := Initial(nloop);
    var byA: nat := if v - 2 <= nloop - 1 then v - 2 else nloop - 1;
    RoundsReachable(nloop, s0, A, byA);
    var s1 := Rounds(s0, A, byA);
    RoundsReachable(nloop, s1, B, v - 2 - byA);
    var s2 := Rounds(s1, B, v - 2 - byA);
    var last := LoseAllButTwo(nloop, s2);
    assert Reachable(nloop, last) && Finished(last) && last.counter == v;
  }

  /** One round each, both reading before either writes. */
  lemma SingleRoundsCanLoseOne()
    ensures CanEndWith(1, 1)
  {
    InitialReachable(1);
    var s0 := Initial(1);
    ReachableStep(1, s0, A);
    ReachableStep(1, Next(s0, A), B);
    var both := Next(Next(s0, A), B);
    ReachableStep(1, both, A);
    ReachableStep(1, Next(both, A), B);
    var last := Next(Next(both, A), B);
    assert Reachable(1, last) && Finished(last) && last.counter == 1;
  }

  /** The possible results, exactly: with at least two rounds each, every value from 2 to
      2 * NLOOP is the result of some interleaving, and no other value is. */
  lemma ResultsExactly(nloop: nat, v: int)
    ensures CanEndWith(nloop, v) <==> (if nloop < 2 then nloop else 2) <= v <= 2 * nloop
  {
    if CanEndWith(nloop, v) {
      var s :| Reachable(nloop, s) && Finished(s) && s.counter == v;
      ReachableInv(nloop, s);
    }
    if (if nloop < 2 then nloop else 2) <= v <= 2 * nloop {
      if nloop == 0 {
        InitialReachable(0);
        assert Finished(Initial(0)) && Initial(0).counter == v;
      } else if v >= 2 {
        EndsWith(nloop, v);
      } else {
        SingleRoundsCanLoseOne();
      }
    }
  }

  /** Without a lock nobody ever waits: a thread with a round left can move at any point. */
  lemma NobodyWaits(nloop: nat, s: State, t: Thread)
    requires Reachable(nloop, s)
    ensures Enabled(s, t) <==> s.Get(t).done < nloop
  {
    ReachableInv(nloop, s);
  }

  // ---------------------------------------------------------------- the same steps in place

  class Counter {
    const nloop: nat
    var counter: int
    var a: Worker
    var b: Worker

    function View(): State
      reads this
    {
      State(nloop, counter, a, b)
    }

    constructor (nloop: nat)
      ensures View() == Initial(nloop)
    {
      this.nloop := nloop;
      counter := 0;
      a := Worker(Read, 0, 0);
      b := Worker(Read, 0, 0);
    }

    /** The next half of thread t's increment. */
    method DoIt(t: Thread)
      requires Enabled(View(), t)
      modifies this
      ensures View() == Next(old(View()), t)
    {
      var w := if t == A then a else b;
      match w.pc {
        case Read =>
          w := w.(pc := Write, val := counter);
        case Write =>
          counter := w.val + 1;
          w := w.(pc := Read, done := w.done + 1);
      }
      if t == A {
        a := w;
      } else {
        b := w;
      }
    }
  }

  /** A scheduler: whatever the schedule, when both threads have finished the counter is between
      2 and 2 * NLOOP, for at least two rounds each. */
  method RunSchedule(nloop: nat, schedule: seq<Thread>) returns (c: Counter, ghost states: seq<State>)
    ensures c.View() == After(Initial(nloop), Turn, schedule)
    ensures Run(Initial(nloop), Step, states) && states[|states| - 1] == c.View()
    ensures Finished(c.View()) ==> (if nloop < 2 then nloop else 2) <= c.counter <= 2 * nloop
  {
    c := new Counter(nloop);
    states := [c.View()];
    for k := 0 to |schedule|
      invariant fresh(c) && c.View() == After(Initial(nloop), Turn, schedule[..k])
      invariant Run(Initial(nloop), Step, states) && states[|states| - 1] == c.View()
    {
      NextTurn(Initial(nloop), Turn, schedule, k);
      if Enabled(c.View(), schedule[k]) {
        ghost var before := c.View();
        c.DoIt(schedule[k]);
        assert Step(before, c.View());
        RunExtends(Initial(nloop), Step, states, c.View());
        states := states + [c.View()];
      }
    }
    assert schedule[..|schedule|] == schedule;
    assert Reachable(nloop, c.View());
    if Finished(c.View()) {
      ReachableInv(nloop, c.View());
      assert CanEndWith(nloop, c.counter);
      ResultsExactly(nloop, c.counter);
    }
  }
}
