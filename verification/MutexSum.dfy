/** Homework2/main.c: p threads add the squares of their chunk to a global, one number at a time
    inside a mutex; main joins them all and prints the total. */
module MutexSum {
  import opened Options
  import opened Sums
  import opened Totals
  import opened Transitions
  import opened WorkSplit

  /** The bounds struct. */
  datatype Bounds = Bounds(from: int, to: int)

  datatype Pc = Lock | Load | Store | Unlock | Finished

  /** `loaded` is the value of totalSum the thread is about to add to. */
  datatype Worker = Worker(pc: Pc, i: int, to: int, loaded: int)

  datatype State = State(
    totalSum: int,
    owner: Option<nat>,
    workers: seq<Worker>,
    reported: Option<int>)

  function ChunkBounds(n: nat, p: nat, i: nat): Bounds
    requires p > 0
  {
    Bounds(From(n, p, i), To(n, p, i))
  }

  function Started(b: Bounds): Worker {
    Worker(if b.from <= b.to then Lock else Finished, b.from, b.to, 0)
  }

  function Initial(n: nat, p: nat): State
    requires p > 0
  {
    State(0, None, seq(p, i requires i >= 0 => Started(ChunkBounds(n, p, i))), None)
  }

  datatype Thread = WorkerAt(t: nat) | Main

  // ---------------------------------------------------------------- the steps

  predicate Enabled(s: State, t: Thread) {
    && s.reported == None
    && match t
       case WorkerAt(t) =>
         && t < |s.workers| && s.workers[t].pc != Finished
         && (s.workers[t].pc == Lock ==> s.owner == None)
       case Main => forall t :: 0 <= t < |s.workers| ==> s.workers[t].pc == Finished
  }

  function WorkerNext(s: State, t: nat): State
    requires Enabled(s, WorkerAt(t))
  {
    var w := s.workers[t];
    match w.pc
    case Lock => Move(s, t, w.(pc := Load)).(owner := Some(t))
    case Load => Move(s, t, w.(pc := Store, loaded := s.totalSum))
    case Store => Move(s, t, w.(pc := Unlock)).(totalSum := w.loaded + w.i * w.i)
    case Unlock =>
      Move(s, t, w.(pc := if w.i + 1 <= w.to then Lock else Finished, i := w.i + 1)).(owner := None)
  }

  function Move(s: State, t: nat, w: Worker): State
    requires t < |s.workers|
  {
    s.(workers := s.workers[t := w])
  }

  function Next(s: State, t: Thread): State
    requires Enabled(s, t)
  {
    match t case WorkerAt(t) => WorkerNext(s, t) case Main => s.(reported := Some(s.totalSum))
  }

  ghost predicate Step(s: State, s': State) {
    exists t :: Enabled(s, t) && s' == Next(s, t)
  }

  /** A turn of the scheduler for a thread: its next step, or nothing if it is blocked. */
  function Turn(s: State, t: Thread): State {
    if Enabled(s, t) then Next(s, t) else s
  }

  // ---------------------------------------------------------------- the invariant

  lemma {:induction false} RangeSquaresNonnegative(lo: int, hi: int)
    ensures RangeSquares(lo, hi) >= 0
    decreases hi - lo
  {
    if lo <= hi {
      RangeSquaresNonnegative(lo + 1, hi);
    }
  }

  /** The squares a worker has still to store. */
  function Owed(w: Worker): nat {
    RangeSquaresNonnegative(if w.pc == Unlock then w.i + 1 else w.i, w.to);
    RangeSquares(if w.pc == Unlock then w.i + 1 else w.i, w.to)
  }

  predicate InCriticalSection(w: Worker) {
    w.pc in {Load, Store, Unlock}
  }

  ghost predicate Inv(n: nat, s: State) {
    && (s.owner.Some? ==> s.owner.value < |s.workers| && InCriticalSection(s.workers[s.owner.value]))
    && (forall t :: 0 <= t < |s.workers| ==>
          && (InCriticalSection(s.workers[t]) ==> s.owner == Some(t))
          && (s.workers[t].pc == Store ==> s.workers[t].loaded == s.totalSum)
          && (s.workers[t].pc == Finished <==> s.workers[t].i > s.workers[t].to))
    && s.totalSum >= 0
    && s.totalSum + Total(s.workers, Owed) == SquaresTo(n)
    && (s.reported.Some? ==> s.reported.value == SquaresTo(n))
  }

  lemma {:induction false} SharesMakeTheSum(n: nat, p: nat, k: nat, workers: seq<Worker>)
    requires p > 0 && k <= p == k + |workers|
    requires forall i :: 0 <= i < |workers| ==> workers[i] == Started(ChunkBounds(n, p, k + i))
    ensures Total(workers, Owed) == SquaresTo(n) - SquaresTo(Boundary(n, p, k))
    decreases p - k
  {
    if k == p {
      EndPoints(n, p);
    } else {
      SharesMakeTheSum(n, p, k + 1, workers[1..]);
      ChunkSum(n, p, k);
      assert workers[0] == Started(ChunkBounds(n, p, k));
    }
  }

  lemma InitialInv(n: nat, p: nat)
    requires p > 0
    ensures Inv(n, Initial(n, p))
  {
    SharesMakeTheSum(n, p, 0, Initial(n, p).workers);
    EndPoints(n, p);
  }

  /** What a step adds to the total it takes from what the worker owes. */
  lemma WorkerPays(s: State, t: nat)
    requires Enabled(s, WorkerAt(t)) && s.workers[t].i <= s.workers[t].to
    requires s.workers[t].pc == Store ==> s.workers[t].loaded == s.totalSum
    ensures var s' := WorkerNext(s, t);
            && s'.workers == s.workers[t := s'.workers[t]] && s'.totalSum >= s.totalSum
            && s'.totalSum + Owed(s'.workers[t]) == s.totalSum + Owed(s.workers[t])
  {}

  lemma WorkerKeepsInv(n: nat, s: State, t: nat)
    requires Inv(n, s) && Enabled(s, WorkerAt(t))
    ensures Inv(n, Next(s, WorkerAt(t)))
  {
    WorkerPays(s, t);
    TotalAfterUpdate(s.workers, t, Next(s, WorkerAt(t)).workers[t], Owed);
  }

  lemma MainKeepsInv(n: nat, s: State)
    requires Inv(n, s) && Enabled(s, Main)
    ensures Inv(n, Next(s, Main))
  {
    TotalOfEqualWeights(s.workers, Owed, 0);
  }

  lemma StepKeepsInv(n: nat, s: State, s': State)
    requires Inv(n, s) && Step(s, s')
    ensures Inv(n, s')
  {
    var t :| Enabled(s, t) && s' == Next(s, t);
    match t
    case WorkerAt(t) => WorkerKeepsInv(n, s, t);
    case Main => MainKeepsInv(n, s);
  }

  /** What the globals hold, and what a thread is about to store, never exceeds the sum. */
  ghost predicate WithinTheSum(n: nat, s: State) {
    && 0 <= s.totalSum <= SquaresTo(n)
    && (forall t :: 0 <= t < |s.workers| && s.workers[t].pc == Store ==>
          0 <= s.workers[t].loaded + s.workers[t].i * s.workers[t].i <= SquaresTo(n))
  }

  lemma OwesTheNextSquare(w: Worker)
    requires w.pc == Store && w.i <= w.to
    ensures 0 <= w.i * w.i <= Owed(w)
  {
    RangeSquaresNonnegative(w.i + 1, w.to);
  }

  lemma InvIsWithinTheSum(n: nat, s: State)
    requires Inv(n, s)
    ensures WithinTheSum(n, s)
  {
    forall t: nat | t < |s.workers| && s.workers[t].pc == Store
      ensures 0 <= s.workers[t].loaded + s.workers[t].i * s.workers[t].i <= SquaresTo(n)
    {
      TotalAtLeast(s.workers, t, Owed);
      OwesTheNextSquare(s.workers[t]);
    }
  }

  // ---------------------------------------------------------------- whole runs

  lemma RunKeepsInv(n: nat, p: nat, states: seq<State>, k: nat)
    requires p > 0 && Run(Initial(n, p), Step, states) && k < |states|
    ensures Inv(n, states[k])
  {
    InitialInv(n, p);
    forall s, s' | Inv(n, s) && Step(s, s') ensures Inv(n, s') {
      StepKeepsInv(n, s, s');
    }
    InvariantAlongRun(Initial(n, p), Step, (s: State) => Inv(n, s), states, k);
  }

  /** At every point of every run the total, and the value a thread is about to store, are between
      0 and the final sum, so for the accepted n they fit a 32-bit int. */
  lemma EveryStateFitsInt(n: nat, p: nat, states: seq<State>, k: nat)
    requires p > 0 && Run(Initial(n, p), Step, states) && k < |states|
    ensures WithinTheSum(n, states[k])
    ensures n <= 1000 ==> SquaresTo(n) < 0x8000_0000
  {
    RunKeepsInv(n, p, states, k);
    InvIsWithinTheSum(n, states[k]);
    if n <= 1000 {
      SquaresFitInt(n);
    }
  }

  function WorkerSteps(w: Worker): nat {
    var rounds := if w.i <= w.to then 4 * (w.to - w.i + 1) else 0;
    match w.pc
    case Load => if rounds >= 1 then rounds - 1 else 0
    case Store => if rounds >= 2 then rounds - 2 else 0
    case Unlock => if rounds >= 3 then rounds - 3 else 0
    case _ => rounds
  }

  function StepsLeft(s: State): int {
    Total(s.workers, WorkerSteps) + if s.reported == None then 1 else 0
  }

  lemma StepCostsOne(n: nat, s: State, t: Thread)
    requires Inv(n, s) && Enabled(s, t)
    ensures StepsLeft(Next(s, t)) == StepsLeft(s) - 1
  {
    if t.WorkerAt? {
      TotalAfterUpdate(s.workers, t.t, Next(s, t).workers[t.t], WorkerSteps);
    }
  }

  lemma NeverStuck(n: nat, s: State)
    requires Inv(n, s) && s.reported == None
    ensures exists t :: Enabled(s, t)
  {
    if s.owner.Some? {
      assert Enabled(s, WorkerAt(s.owner.value));
    } else if t :| 0 <= t < |s.workers| && s.workers[t].pc != Finished {
      assert Enabled(s, WorkerAt(t));
    } else {
      assert Enabled(s, Main);
    }
  }

  lemma {:induction false} WorkOfAll(n: nat, p: nat, k: nat, workers: seq<Worker>)
    requires p > 0 && k <= p == k + |workers|
    requires forall i :: 0 <= i < |workers| ==> workers[i] == Started(ChunkBounds(n, p, k + i))
    ensures Total(workers, WorkerSteps) == 4 * (n - Boundary(n, p, k))
    decreases p - k
  {
    EndPoints(n, p);
    if k < p {
      WorkOfAll(n, p, k + 1, workers[1..]);
      BoundaryMonotone(n, p, k, k + 1);
      assert workers[0] == Started(ChunkBounds(n, p, k));
    }
  }

  /** Under every interleaving the program takes at most 4n + 1 steps, and a run that cannot be
      extended has printed n(n+1)(2n+1)/6, for any number of threads. */
  lemma EveryRunPrintsTheSum(n: nat, p: nat, states: seq<State>)
    requires p > 0 && Run(Initial(n, p), Step, states)
    ensures |states| - 1 <= 4 * n + 1
    ensures var last := states[|states| - 1];
            (forall t :: !Enabled(last, t)) ==> last.reported == Some(n * (n + 1) * (2 * n + 1) / 6)
  {
    var s0 := Initial(n, p);
    var inv := (s: State) => Inv(n, s);
    InitialInv(n, p);
    forall s, s' | Inv(n, s) && Step(s, s')
      ensures Inv(n, s') && StepsLeft(s') < StepsLeft(s)
    {
      StepKeepsInv(n, s, s');
      var t :| Enabled(s, t) && s' == Next(s, t);
      StepCostsOne(n, s, t);
    }
    WorkOfAll(n, p, 0, s0.workers);
    EndPoints(n, p);
    MeasureBoundsRun(s0, Step, inv, StepsLeft, states, |states| - 1);
    RunKeepsInv(n, p, states, |states| - 1);
    var last := states[|states| - 1];
    if forall t :: !Enabled(last, t) {
      if last.reported == None {
        NeverStuck(n, last);
      }
      SquaresClosedForm(n);
    }
  }

  /** A worker with numbers left waits exactly while somebody is inside the mutex and it is at the
      lock; main waits exactly for workers with numbers left. */
  lemma EveryStateWaitsExactly(n: nat, p: nat, states: seq<State>, k: nat)
    requires p > 0 && Run(Initial(n, p), Step, states) && k < |states| && states[k].reported == None
    ensures var s := states[k];
            && (Enabled(s, Main) <==> forall t :: 0 <= t < |s.workers| ==> s.workers[t].i > s.workers[t].to)
            && forall t: nat :: Enabled(s, WorkerAt(t)) <==>
                 && t < |s.workers| && s.workers[t].i <= s.workers[t].to
                 && (s.workers[t].pc == Lock ==>
                       forall u :: 0 <= u < |s.workers| ==> !InCriticalSection(s.workers[u]))
  {
    RunKeepsInv(n, p, states, k);
    var s := states[k];
    if s.owner.Some? {
      assert InCriticalSection(s.workers[s.owner.value]);
    }
  }

  /** The total changes only in the hands of the owner of the mutex, by one square, and a worker
      that goes on to its next number has given the mutex back. */
  lemma EffectsInOrder(n: nat, s: State, t: nat)
    requires Inv(n, s) && Enabled(s, WorkerAt(t))
    ensures var s' := Next(s, WorkerAt(t));
            && (s'.totalSum != s.totalSum ==>
                  s.owner == s'.owner == Some(t)
                  && s'.totalSum == s.totalSum + s.workers[t].i * s.workers[t].i)
            && (s'.workers[t].i != s.workers[t].i ==>
                  s.owner == Some(t) && s'.owner == None && s'.workers[t].i == s.workers[t].i + 1)
  {
    assert InCriticalSection(s.workers[t]) ==> s.owner == Some(t);
  }

  // ---------------------------------------------------------------- the same steps in place

  /** Fill thisBounds, one entry for each thread. */
  method FillBounds(n: nat, numThreads: nat) returns (thisBounds: array<Bounds>)
    requires numThreads > 0
    ensures fresh(thisBounds) && thisBounds.Length == numThreads
    ensures forall i :: 0 <= i < numThreads ==> thisBounds[i] == ChunkBounds(n, numThreads, i)
  {
    thisBounds := new Bounds[numThreads](_ => Bounds(0, 0));
    for i := 0 to numThreads
      invariant forall k :: 0 <= k < i ==> thisBounds[k] == ChunkBounds(n, numThreads, k)
    {
      thisBounds[i] := Bounds(i * n / numThreads + 1, (i + 1) * n / numThreads);
    }
  }

  class Threads {
    var totalSum: int
    var owner: Option<nat>
    var workers: seq<Worker>
    var reported: Option<int>

    function View(): State
      reads this
    {
      State(totalSum, owner, workers, reported)
    }

    constructor (n: nat, numThreads: nat)
      requires numThreads > 0
      ensures View() == Initial(n, numThreads)
    {
      var thisBounds := FillBounds(n, numThreads);
      totalSum := 0;
      owner := None;
      workers := seq(numThreads, i requires 0 <= i < thisBounds.Length reads thisBounds => Started(thisBounds[i]));
      reported := None;
    }

    method WorkerStep(t: nat)
      requires Enabled(View(), WorkerAt(t))
      modifies this
      ensures View() == Next(old(View()), WorkerAt(t))
    {
      var w := workers[t];
      match w.pc {
        case Lock =>
          owner := Some(t);
          w := w.(pc := Load);
        case Load =>
          w := w.(pc := Store, loaded := totalSum);
        case Store =>
          totalSum := w.loaded + w.i * w.i;
          w := w.(pc := Unlock);
        case Unlock =>
          owner := None;
          w := w.(pc := if w.i + 1 <= w.to then Lock else Finished, i := w.i + 1);
      }
      workers := workers[t := w];
    }

    method MainStep()
      requires Enabled(View(), Main)
      modifies this
      ensures View() == Next(old(View()), Main)
    {
      reported := Some(totalSum);
    }
  }

  /** A scheduler: whatever the schedule, what main has printed is the closed form, and once
      nobody can move it has printed it. */
  method RunSchedule(n: nat, numThreads: nat, schedule: seq<Thread>)
    returns (ts: Threads, ghost states: seq<State>)
    requires numThreads > 0
    ensures ts.View() == After(Initial(n, numThreads), Turn, schedule)
    ensures Run(Initial(n, numThreads), Step, states) && states[|states| - 1] == ts.View()
    ensures ts.reported.Some? ==> ts.reported.value == n * (n + 1) * (2 * n + 1) / 6
    ensures (forall t :: !Enabled(ts.View(), t)) ==> ts.reported.Some?
  {
    ts := new Threads(n, numThreads);
    states := [ts.View()];
    for k := 0 to |schedule|
      invariant fresh(ts) && ts.View() == After(Initial(n, numThreads), Turn, schedule[..k])
      invariant Run(Initial(n, numThreads), Step, states) && states[|states| - 1] == ts.View()
    {
      NextTurn(Initial(n, numThreads), Turn, schedule, k);
      if Enabled(ts.View(), schedule[k]) {
        ghost var before := ts.View();
        match schedule[k] {
          case WorkerAt(t) => ts.WorkerStep(t);
          case Main => ts.MainStep();
        }
        assert Step(before, ts.View());
        RunExtends(Initial(n, numThreads), Step, states, ts.View());
        states := states + [ts.View()];
      }
    }
    assert schedule[..|schedule|] == schedule;
    RunKeepsInv(n, numThreads, states, |states| - 1);
    SquaresClosedForm(n);
    EveryRunPrintsTheSum(n, numThreads, states);
  }
}
