/** Homework1/main.c: p children each write the sum of their chunk into one pipe and exit; the
    parent waits for all of them before it reads p integers. The pipe holds `capacity` bytes and
    a write of an int blocks until its four bytes fit, all at once. A read from the empty pipe,
    which would meet end of file, is not a step; no run gets there. */
module PipeSum {
  import opened Sums
  import opened Totals
  import opened Transitions
  import opened WorkSplit

  const INT_BYTES := 4

  datatype ChildPc = Computing | Writing(pSum: int) | Exited

  /** The child the i-th fork made. */
  datatype Child = Child(i: nat, pc: ChildPc)

  datatype ParentPc = Waiting | Reading(i: nat) | Done

  datatype State = State(
    n: nat, p: nat, capacity: nat,
    pipe: seq<int>,
    children: seq<Child>,
    parent: ParentPc, sum: int)

  function Initial(n: nat, p: nat, capacity: nat): State {
    State(n, p, capacity, [], seq(p, i requires i >= 0 => Child(i, Computing)), Waiting, 0)
  }

  datatype Process = ChildAt(c: nat) | Parent

  // ---------------------------------------------------------------- the steps

  predicate Enabled(s: State, t: Process) {
    match t
    case ChildAt(c) =>
      && c < |s.children| && s.p > 0
      && (match s.children[c].pc
          case Computing => true
          case Writing(_) => INT_BYTES * (|s.pipe| + 1) <= s.capacity
          case Exited => false)
    case Parent =>
      (match s.parent
       case Waiting => forall c :: 0 <= c < |s.children| ==> s.children[c].pc == Exited
       case Reading(i) => i < s.p ==> s.pipe != []
       case Done => false)
  }

  function ChildNext(s: State, c: nat): State
    requires Enabled(s, ChildAt(c))
  {
    var i := s.children[c].i;
    match s.children[c].pc
    case Computing =>
      s.(children := s.children[c := Child(i, Writing(RangeSum(From(s.n, s.p, i), To(s.n, s.p, i))))])
    case Writing(pSum) => s.(pipe := s.pipe + [pSum], children := s.children[c := Child(i, Exited)])
  }

  function ParentNext(s: State): State
    requires Enabled(s, Parent)
  {
    match s.parent
    case Waiting => s.(parent := Reading(0))
    case Reading(i) =>
      if i < s.p then
        s.(sum := s.sum + s.pipe[0], pipe := s.pipe[1..], parent := Reading(i + 1))
      else
        s.(parent := Done)
  }

  function Next(s: State, t: Process): State
    requires Enabled(s, t)
  {
    match t case ChildAt(c) => ChildNext(s, c) case Parent => ParentNext(s)
  }

  ghost predicate Step(s: State, s': State) {
    exists t :: Enabled(s, t) && s' == Next(s, t)
  }

  /** A turn of the scheduler for a process: its next step, or nothing if it is blocked. */
  function Turn(s: State, t: Process): State {
    if Enabled(s, t) then Next(s, t) else s
  }

  // ---------------------------------------------------------------- the invariant

  /** What child i contributes; its chunk's sum. */
  function Share(n: nat, p: nat, i: nat): nat
    requires p > 0
  {
    ChunkSum(n, p, i);
    SumToMonotone(Boundary(n, p, i), Boundary(n, p, i + 1));
    RangeSum(From(n, p, i), To(n, p, i))
  }

  /** Sums the children have still to write. */
  function Owed(n: nat, p: nat): Child -> nat {
    (c: Child) => if c.pc == Exited || p == 0 then 0 else Share(n, p, c.i)
  }

  function Alive(c: Child): nat {
    if c.pc == Exited then 0 else 1
  }

  function InPipe(pipe: seq<int>): int {
    if pipe == [] then 0 else pipe[0] + InPipe(pipe[1..])
  }

  lemma {:induction false} InPipeAppend(pipe: seq<int>, x: int)
    ensures InPipe(pipe + [x]) == InPipe(pipe) + x
  {
    if pipe == [] {
      assert [x][1..] == [];
    } else {
      assert (pipe + [x])[1..] == pipe[1..] + [x];
      InPipeAppend(pipe[1..], x);
    }
  }

  function ReadSoFar(s: State): nat {
    match s.parent case Waiting => 0 case Reading(i) => i case Done => s.p
  }

  ghost predicate InvFor(n: nat, p: nat, capacity: nat, s: State) {
    && s.n == n && s.p == p && s.capacity == capacity && |s.children| == p
    && (forall c :: 0 <= c < p ==>
          s.children[c].pc.Writing? ==> s.children[c].pc.pSum == Share(n, p, s.children[c].i))
    && 0 <= s.sum && (forall k :: 0 <= k < |s.pipe| ==> 0 <= s.pipe[k])
    && s.sum + InPipe(s.pipe) + Total(s.children, Owed(n, p)) == SumTo(n)
    && ReadSoFar(s) + |s.pipe| + Total(s.children, Alive) == p
    && INT_BYTES * |s.pipe| <= capacity
    && (s.parent != Waiting ==>
          INT_BYTES * p <= capacity && forall c :: 0 <= c < p ==> s.children[c].pc == Exited)
    && (s.parent.Reading? ==> s.parent.i <= p)
    && (s.parent == Done ==> s.pipe == [])
  }

  /** All shares from the k-th on make up the rest of the sum. */
  lemma {:induction false} SharesMakeTheSum(n: nat, p: nat, k: nat, children: seq<Child>)
    requires p > 0 && k <= p == k + |children|
    requires forall c :: 0 <= c < |children| ==> children[c] == Child(k + c, Computing)
    ensures Total(children, Owed(n, p)) == SumTo(n) - SumTo(Boundary(n, p, k))
    decreases p - k
  {
    if k == p {
      EndPoints(n, p);
    } else {
      SharesMakeTheSum(n, p, k + 1, children[1..]);
      ChunkSum(n, p, k);
    }
  }

  lemma InitialInv(n: nat, p: nat, capacity: nat)
    requires p > 0
    ensures InvFor(n, p, capacity, Initial(n, p, capacity))
  {
    var s := Initial(n, p, capacity);
    SharesMakeTheSum(n, p, 0, s.children);
    EndPoints(n, p);
    TotalOfEqualWeights(s.children, Alive, 1);
  }

  lemma ChildKeepsInv(n: nat, p: nat, capacity: nat, s: State, c: nat)
    requires InvFor(n, p, capacity, s) && Enabled(s, ChildAt(c))
    ensures InvFor(n, p, capacity, Next(s, ChildAt(c)))
  {
    var s' := Next(s, ChildAt(c));
    TotalAfterUpdate(s.children, c, s'.children[c], Owed(n, p));
    TotalAfterUpdate(s.children, c, s'.children[c], Alive);
    if s.children[c].pc.Writing? {
      InPipeAppend(s.pipe, s.children[c].pc.pSum);
    }
  }

  lemma ParentKeepsInv(n: nat, p: nat, capacity: nat, s: State)
    requires InvFor(n, p, capacity, s) && Enabled(s, Parent)
    ensures InvFor(n, p, capacity, Next(s, Parent))
  {
    TotalOfEqualWeights(s.children, Alive, 0);
  }

  lemma StepKeepsInv(n: nat, p: nat, capacity: nat, s: State, s': State)
    requires InvFor(n, p, capacity, s) && Step(s, s')
    ensures InvFor(n, p, capacity, s')
  {
    var t :| Enabled(s, t) && s' == Next(s, t);
    match t
    case ChildAt(c) => ChildKeepsInv(n, p, capacity, s, c);
    case Parent => ParentKeepsInv(n, p, capacity, s);
  }

  lemma {:induction false} InPipeAtLeast(pipe: seq<int>, j: nat)
    requires forall k :: 0 <= k < |pipe| ==> 0 <= pipe[k]
    ensures 0 <= InPipe(pipe) && (j < |pipe| ==> pipe[j] <= InPipe(pipe))
  {
    if pipe != [] {
      InPipeAtLeast(pipe[1..], if j == 0 then 0 else j - 1);
    }
  }

  /** What the parent has added up, what is in the pipe and what a child is about to write never
      exceeds the sum. */
  ghost predicate WithinTheSum(n: nat, s: State) {
    && 0 <= s.sum <= SumTo(n)
    && (forall k :: 0 <= k < |s.pipe| ==> 0 <= s.pipe[k] && s.sum + s.pipe[k] <= SumTo(n))
    && (forall c :: 0 <= c < |s.children| && s.children[c].pc.Writing? ==>
          0 <= s.children[c].pc.pSum <= SumTo(n))
  }

  lemma InvIsWithinTheSum(n: nat, p: nat, capacity: nat, s: State)
    requires p > 0 && InvFor(n, p, capacity, s)
    ensures WithinTheSum(n, s)
  {
    InPipeAtLeast(s.pipe, 0);
    forall k: nat | k < |s.pipe| ensures s.pipe[k] <= InPipe(s.pipe) {
      InPipeAtLeast(s.pipe, k);
    }
    forall c: nat | c < |s.children| && s.children[c].pc.Writing?
      ensures 0 <= s.children[c].pc.pSum <= SumTo(n)
    {
      TotalAtLeast(s.children, c, Owed(n, p));
    }
  }

  // ---------------------------------------------------------------- whole runs

  lemma RunKeepsInv(n: nat, p: nat, capacity: nat, states: seq<State>, k: nat)
    requires p > 0 && Run(Initial(n, p, capacity), Step, states) && k < |states|
    ensures InvFor(n, p, capacity, states[k])
  {
    InitialInv(n, p, capacity);
    forall s, s' | InvFor(n, p, capacity, s) && Step(s, s') ensures InvFor(n, p, capacity, s') {
      StepKeepsInv(n, p, capacity, s, s');
    }
    InvariantAlongRun(
      Initial(n, p, capacity), Step, (s: State) => InvFor(n, p, capacity, s), states, k);
  }

  /** At every point of every run the parent's sum, the integers in the pipe and those about to be
      written are between 0 and the final sum, so for the accepted n they fit a 32-bit int. */
  lemma EveryStateFitsInt(n: nat, p: nat, capacity: nat, states: seq<State>, k: nat)
    requires p > 0 && Run(Initial(n, p, capacity), Step, states) && k < |states|
    ensures WithinTheSum(n, states[k])
    ensures n <= 1000 ==> SumTo(n) < 0x8000_0000
  {
    RunKeepsInv(n, p, capacity, states, k);
    InvIsWithinTheSum(n, p, capacity, states[k]);
    if n <= 1000 {
      SumToMonotone(n, 1000);
      SumToClosedForm(1000);
    }
  }

  function ChildSteps(c: Child): nat {
    match c.pc case Computing => 2 case Writing(_) => 1 case Exited => 0
  }

  function StepsLeft(s: State): int {
    Total(s.children, ChildSteps)
    + match s.parent case Waiting => s.p + 2 case Reading(i) => s.p - i + 1 case Done => 0
  }

  lemma StepCostsOne(n: nat, p: nat, capacity: nat, s: State, t: Process)
    requires InvFor(n, p, capacity, s) && Enabled(s, t)
    ensures StepsLeft(Next(s, t)) == StepsLeft(s) - 1
  {
    if t.ChildAt? {
      TotalAfterUpdate(s.children, t.c, Next(s, t).children[t.c], ChildSteps);
    }
  }

  /** A state nobody can leave is either the end, or the deadlock of a parent that waits for
      children which wait for room in the pipe. */
  lemma StuckStates(n: nat, p: nat, capacity: nat, s: State)
    requires p > 0 && InvFor(n, p, capacity, s) && forall t :: !Enabled(s, t)
    ensures if INT_BYTES * p <= capacity then s.parent == Done && s.sum == SumTo(n)
            else s.parent == Waiting && exists c :: 0 <= c < p && s.children[c].pc.Writing?
  {
    assert !Enabled(s, Parent);
    forall c: nat | c < p ensures s.children[c].pc != Computing {
      assert !Enabled(s, ChildAt(c));
    }
    if s.parent == Waiting {
      var c: nat :| c < p && s.children[c].pc != Exited;
      assert !Enabled(s, ChildAt(c));
      TotalAtLeast(s.children, c, Alive);
    } else {
      TotalOfEqualWeights(s.children, Owed(n, p), 0);
      TotalOfEqualWeights(s.children, Alive, 0);
    }
  }

  /** Every run is finite, and in whatever order the children write, a run that cannot be
      extended has delivered n(n+1)/2 exactly when all p integers fit the pipe at once;
      otherwise it has deadlocked. */
  lemma DeadlockFreeExactlyWhenAllFit(n: nat, p: nat, capacity: nat, states: seq<State>)
    requires p > 0 && Run(Initial(n, p, capacity), Step, states)
    ensures |states| - 1 <= 3 * p + 2
    ensures var last := states[|states| - 1];
            (forall t :: !Enabled(last, t)) ==>
              && (last.parent == Done <==> INT_BYTES * p <= capacity)
              && (last.parent == Done ==> last.sum == n * (n + 1) / 2)
  {
    var s0 := Initial(n, p, capacity);
    var inv := (s: State) => InvFor(n, p, capacity, s);
    InitialInv(n, p, capacity);
    forall s, s' | InvFor(n, p, capacity, s) && Step(s, s')
      ensures InvFor(n, p, capacity, s') && StepsLeft(s') < StepsLeft(s)
    {
      StepKeepsInv(n, p, capacity, s, s');
      var t :| Enabled(s, t) && s' == Next(s, t);
      StepCostsOne(n, p, capacity, s, t);
    }
    TotalOfEqualWeights(s0.children, ChildSteps, 2);
    MeasureBoundsRun(s0, Step, inv, StepsLeft, states, |states| - 1);
    RunKeepsInv(n, p, capacity, states, |states| - 1);
    var last := states[|states| - 1];
    StepsLeftNonnegative(n, p, capacity, last);
    if forall t :: !Enabled(last, t) {
      StuckStates(n, p, capacity, last);
      SumToClosedForm(n);
    }
  }

  lemma StepsLeftNonnegative(n: nat, p: nat, capacity: nat, s: State)
    requires InvFor(n, p, capacity, s)
    ensures StepsLeft(s) >= 0
  {}

  const POSIX_PIPE_BUF := 512
  const MAX_PROCESSES := 100

  /** The program accepts at most 100 processes and a pipe holds at least 512 bytes, so the
      program itself never deadlocks, and the sum it prints fits a 32-bit int. */
  lemma AcceptedArgumentsNeverDeadlock(n: nat, p: nat, capacity: nat, states: seq<State>)
    requires n <= 1000 && 2 <= p <= n / 2 && p <= MAX_PROCESSES && capacity >= POSIX_PIPE_BUF
    requires Run(Initial(n, p, capacity), Step, states)
    ensures var last := states[|states| - 1];
            (forall t :: !Enabled(last, t)) ==>
              last.parent == Done && last.sum == n * (n + 1) / 2 < 0x8000_0000
  {
    DeadlockFreeExactlyWhenAllFit(n, p, capacity, states);
    TwiceSumTo(n);
    SumToClosedForm(n);
    SumToMonotone(n, 1000);
    SumToClosedForm(1000);
  }

  /** A child that still runs waits exactly with its sum in hand while the four bytes do not fit
      behind those of the children that have exited; the parent waits exactly for children that
      have not, and never for a byte. */
  lemma EveryStateWaitsExactly(n: nat, p: nat, capacity: nat, states: seq<State>, k: nat)
    requires p > 0 && Run(Initial(n, p, capacity), Step, states) && k < |states|
    ensures var s := states[k];
            && |s.children| == p
            && (Enabled(s, Parent) <==>
                  s.parent != Done && forall c :: 0 <= c < p ==> s.children[c].pc == Exited)
            && forall c: nat :: Enabled(s, ChildAt(c)) <==>
                 && c < p && s.children[c].pc != Exited
                 && (s.children[c].pc.Writing? ==> 4 * (p - Total(s.children, Alive)) + 4 <= capacity)
  {
    RunKeepsInv(n, p, capacity, states, k);
    var s := states[k];
    if s.parent != Waiting {
      TotalOfEqualWeights(s.children, Alive, 0);
    }
  }

  // ---------------------------------------------------------------- the same steps in place

  /** computePartialSum */
  method ComputePartialSum(from: int, to: int) returns (pSum: int)
    ensures pSum == RangeSum(from, to)
  {
    pSum := 0;
    var i := from;
    while i <= to
      invariant from <= i && (i <= to + 1 || i == from)
      invariant pSum == RangeSum(from, i - 1)
    {
      pSum := pSum + i;
      i := i + 1;
    }
  }

  class Processes {
    const n: nat
    const p: nat
    const capacity: nat
    var pipe: seq<int>
    var children: seq<Child>
    var parent: ParentPc
    var sum: int

    function View(): State
      reads this
    {
      State(n, p, capacity, pipe, children, parent, sum)
    }

    constructor (n: nat, p: nat, capacity: nat)
      ensures View() == Initial(n, p, capacity)
    {
      this.n, this.p, this.capacity := n, p, capacity;
      pipe := [];
      children := seq(p, i requires i >= 0 => Child(i, Computing));
      parent, sum := Waiting, 0;
    }

    method ChildStep(c: nat)
      requires Enabled(View(), ChildAt(c))
      modifies this
      ensures View() == Next(old(View()), ChildAt(c))
    {
      var i := children[c].i;
      match children[c].pc {
        case Computing =>
          var pSum := ComputePartialSum(i * n / p + 1, (i + 1) * n / p);
          children := children[c := Child(i, Writing(pSum))];
        case Writing(pSum) =>
          pipe := pipe + [pSum];
          children := children[c := Child(i, Exited)];
      }
    }

    method ParentStep()
      requires Enabled(View(), Parent)
      modifies this
      ensures View() == Next(old(View()), Parent)
    {
      match parent {
        case Waiting =>
          parent := Reading(0);
        case Reading(i) =>
          if i < p {
            sum := sum + pipe[0];
            pipe := pipe[1..];
            parent := Reading(i + 1);
          } else {
            parent := Done;
          }
      }
    }
  }

  /** A scheduler: whatever the schedule, a parent that is done has the sum, and once nobody can
      move it is done exactly when all integers fit the pipe. */
  method RunSchedule(n: nat, p: nat, capacity: nat, schedule: seq<Process>)
    returns (ps: Processes, ghost states: seq<State>)
    requires p > 0
    ensures ps.View() == After(Initial(n, p, capacity), Turn, schedule)
    ensures Run(Initial(n, p, capacity), Step, states) && states[|states| - 1] == ps.View()
    ensures ps.parent == Done ==> ps.sum == n * (n + 1) / 2
    ensures (forall t :: !Enabled(ps.View(), t)) ==> (ps.parent == Done <==> INT_BYTES * p <= capacity)
  {
    ps := new Processes(n, p, capacity);
    states := [ps.View()];
    for k := 0 to |schedule|
      invariant fresh(ps)
      invariant ps.View() == After(Initial(n, p, capacity), Turn, schedule[..k])
      invariant Run(Initial(n, p, capacity), Step, states) && states[|states| - 1] == ps.View()
    {
      NextTurn(Initial(n, p, capacity), Turn, schedule, k);
      if Enabled(ps.View(), schedule[k]) {
        ghost var before := ps.View();
        match schedule[k] {
          case ChildAt(c) => ps.ChildStep(c);
          case Parent => ps.ParentStep();
        }
        assert Step(before, ps.View());
        RunExtends(Initial(n, p, capacity), Step, states, ps.View());
        states := states + [ps.View()];
      }
    }
    assert schedule[..|schedule|] == schedule;
    if ps.parent == Done {
      RunKeepsInv(n, p, capacity, states, |states| - 1);
      DoneHasTheSum(n, p, capacity, ps.View());
    }
    DeadlockFreeExactlyWhenAllFit(n, p, capacity, states);
  }

  lemma DoneHasTheSum(n: nat, p: nat, capacity: nat, s: State)
    requires InvFor(n, p, capacity, s) && s.parent == Done
    ensures s.sum == n * (n + 1) / 2
  {
    TotalOfEqualWeights(s.children, Owed(n, p), 0);
    SumToClosedForm(n);
  }
}
