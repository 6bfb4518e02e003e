/** Lecture9/cond_variable/main.c: producers that each append one message and signal, one
    consumer that waits on a condition variable, and a stopper that main starts once it has
    joined every producer.

    pthread_cond_wait releases the mutex and blocks in one step (IEEE Std 1003.1, System
    Interfaces, pthread_cond_wait); a signal sent while nobody is blocked is lost; a blocked
    thread may also wake up spuriously. The source starts four producers; any number is
    modelled. `current` is the data of the message in the consumer's hands, 0 when there is none;
    `order` records which producer appended the k-th message, `processed` the
    messages the consumer is done with, `spurious` the spurious wakeups so far. */
module WorkQueue {
  import opened Options
  import opened Totals
  import opened Transitions

  datatype ProducerPc = Allocate | Lock | Append | Signal | Unlock | Done

  datatype ConsumerPc =
    | Acquire | TestLoop | Wait | Blocked | Reacquire | TestExit | Quit | Pop | Release | Process | Exited

  datatype StopperPc = NotCreated | TakeLock | ClearRunning | DropLock | SignalStop | Stopped

  datatype MainPc = JoinProducers | JoinStopper | JoinConsumer | Returned

  datatype Thread = Producer(j: nat) | Consumer | Stopper | Main | Spurious

  datatype State = State(
    data: seq<int>,
    running: bool, queue: seq<int>,
    owner: Option<Thread>,
    producers: seq<ProducerPc>,
    consumer: ConsumerPc, current: int,
    stopper: StopperPc,
    main: MainPc,
    order: seq<nat>, processed: seq<int>, spurious: nat)

  function Initial(data: seq<int>): State {
    State(data, true, [], None, seq(|data|, _ => Allocate), Acquire, 0, NotCreated, JoinProducers, [], [], 0)
  }

  // ---------------------------------------------------------------- the steps

  predicate Enabled(s: State, t: Thread) {
    match t
    case Producer(j) =>
      && j < |s.producers| && j < |s.data|
      && s.producers[j] != Done
      && (s.producers[j] == Lock ==> s.owner == None)
    case Consumer =>
      && s.consumer !in {Blocked, Exited}
      && (s.consumer in {Acquire, Reacquire} ==> s.owner == None)
      && (s.consumer == Pop ==> s.queue != [])
    case Stopper =>
      && s.stopper !in {NotCreated, Stopped}
      && (s.stopper == TakeLock ==> s.owner == None)
    case Main =>
      (match s.main
       case JoinProducers => forall j :: 0 <= j < |s.producers| ==> s.producers[j] == Done
       case JoinStopper => s.stopper == Stopped
       case JoinConsumer => s.consumer == Exited
       case Returned => false)
    case Spurious => s.consumer == Blocked
  }

  /** pthread_cond_signal: wakes the consumer if it is blocked, and is forgotten otherwise. */
  function Woken(c: ConsumerPc): ConsumerPc {
    if c == Blocked then Reacquire else c
  }

  function ProducerNext(s: State, j: nat): State
    requires Enabled(s, Producer(j))
  {
    match s.producers[j]
    case Allocate => s.(producers := s.producers[j := Lock]) // nobody else can see the message yet
    case Lock => s.(owner := Some(Producer(j)), producers := s.producers[j := Append])
    case Append =>
      s.(queue := s.queue + [s.data[j]], order := s.order + [j], producers := s.producers[j := Signal])
    case Signal => s.(consumer := Woken(s.consumer), producers := s.producers[j := Unlock])
    case Unlock => s.(owner := None, producers := s.producers[j := Done])
  }

  function ConsumerNext(s: State): State
    requires Enabled(s, Consumer)
  {
    match s.consumer
    case Acquire => s.(owner := Some(Consumer), consumer := TestLoop)
    case TestLoop => s.(consumer := if s.running && s.queue == [] then Wait else TestExit)
    case Wait => s.(owner := None, consumer := Blocked)
    case Reacquire => s.(owner := Some(Consumer), consumer := TestLoop)
    case TestExit => s.(consumer := if !s.running && s.queue == [] then Quit else Pop)
    case Quit => s.(owner := None, consumer := Exited)
    case Pop => s.(current := s.queue[0], queue := s.queue[1..], consumer := Release)
    case Release => s.(owner := None, consumer := Process)
    case Process => s.(processed := s.processed + [s.current], current := 0, consumer := Acquire)
  }

  function StopperNext(s: State): State
    requires Enabled(s, Stopper)
  {
    match s.stopper
    case TakeLock => s.(owner := Some(Stopper), stopper := ClearRunning)
    case ClearRunning => s.(running := false, stopper := DropLock)
    case DropLock => s.(owner := None, stopper := SignalStop)
    case SignalStop => s.(consumer := Woken(s.consumer), stopper := Stopped)
  }

  function MainNext(s: State): State
    requires Enabled(s, Main)
  {
    match s.main
    case JoinProducers => s.(stopper := TakeLock, main := JoinStopper)
    case JoinStopper => s.(main := JoinConsumer)
    case JoinConsumer => s.(main := Returned)
  }

  function Next(s: State, t: Thread): State
    requires Enabled(s, t)
  {
    match t
    case Producer(j) => ProducerNext(s, j)
    case Consumer => ConsumerNext(s)
    case Stopper => StopperNext(s)
    case Main => MainNext(s)
    case Spurious => s.(consumer := Reacquire, spurious := s.spurious + 1)
  }

  ghost predicate Step(s: State, s': State) {
    exists t :: Enabled(s, t) && s' == Next(s, t)
  }

  /** A turn of the scheduler for a thread: its next step, or nothing if it is blocked. */
  function Turn(s: State, t: Thread): State {
    if Enabled(s, t) then Next(s, t) else s
  }

  // ---------------------------------------------------------------- the invariant

  predicate HoldsLock(s: State, t: Thread) {
    match t
    case Producer(j) => j < |s.producers| && s.producers[j] in {Append, Signal, Unlock}
    case Consumer => s.consumer in {TestLoop, Wait, TestExit, Quit, Pop, Release}
    case Stopper => s.stopper in {ClearRunning, DropLock}
    case _ => false
  }

  ghost predicate LockInv(s: State) {
    forall t :: HoldsLock(s, t) <==> s.owner == Some(t)
  }

  predicate HasAppended(pc: ProducerPc) {
    pc in {Signal, Unlock, Done}
  }

  /** `order` names producers that have appended, none of them twice. */
  ghost predicate OrderOfAppends(producers: seq<ProducerPc>, order: seq<nat>) {
    && (forall k :: 0 <= k < |order| ==> order[k] < |producers| && HasAppended(producers[order[k]]))
    && (forall j, k :: 0 <= j < k < |order| ==> order[j] != order[k])
  }

  /** The messages appended so far, oldest first. */
  function Messages(data: seq<int>, order: seq<nat>): (ms: seq<int>)
    requires forall k :: 0 <= k < |order| ==> order[k] < |data|
  {
    seq(|order|, k requires 0 <= k < |order| => data[order[k]])
  }

  ghost predicate OrderInv(s: State) {
    && |s.producers| == |s.data|
    && OrderOfAppends(s.producers, s.order)
    && (forall j :: 0 <= j < |s.data| && HasAppended(s.producers[j]) ==> j in s.order)
  }

  function InHand(s: State): seq<int> {
    if s.consumer in {Release, Process} then [s.current] else []
  }

  ghost predicate QueueInv(s: State)
    requires OrderInv(s)
  {
    s.processed + InHand(s) + s.queue == Messages(s.data, s.order)
  }

  ghost predicate ConsumerInv(s: State) {
    && (s.consumer == Wait ==> s.running && s.queue == [])
    && (s.consumer == TestExit ==> !s.running || s.queue != [])
    && (s.consumer == Pop ==> s.queue != [])
    && (s.consumer in {Quit, Exited} ==> !s.running && s.queue == [])
  }

  ghost predicate ShutdownInv(s: State) {
    && (s.main == JoinProducers <==> s.stopper == NotCreated)
    && (s.main in {JoinConsumer, Returned} ==> s.stopper == Stopped)
    && (s.main == Returned ==> s.consumer == Exited)
    && (s.running <==> s.stopper in {NotCreated, TakeLock, ClearRunning})
    && (s.stopper != NotCreated ==> forall j :: 0 <= j < |s.producers| ==> s.producers[j] == Done)
  }

  /** Someone still has a signal to send. */
  ghost predicate SignalPending(s: State) {
    || (exists j :: 0 <= j < |s.producers| && s.producers[j] == Signal)
    || s.stopper in {DropLock, SignalStop}
  }

  ghost predicate NoLostWakeup(s: State) {
    s.consumer == Blocked && (s.queue != [] || !s.running) ==> SignalPending(s)
  }

  ghost predicate Inv(s: State) {
    LockInv(s) && OrderInv(s) && QueueInv(s) && ConsumerInv(s) && ShutdownInv(s) && NoLostWakeup(s)
  }

  lemma InitialInv(data: seq<int>)
    ensures Inv(Initial(data))
  {}

  /** A thread other than the one that moves keeps or lacks the mutex as before. */
  lemma OthersKeepLock(s: State, t: Thread, u: Thread)
    requires ShutdownInv(s) && Enabled(s, t) && u != t
    ensures HoldsLock(Next(s, t), u) == HoldsLock(s, u)
  {}

  lemma MoverUpdatesLock(s: State, t: Thread)
    requires LockInv(s) && Enabled(s, t)
    ensures HoldsLock(Next(s, t), t) <==> Next(s, t).owner == Some(t)
    ensures Next(s, t).owner == s.owner
            || (s.owner == None && Next(s, t).owner == Some(t))
            || (s.owner == Some(t) && Next(s, t).owner == None)
  {
    assert HoldsLock(s, t) <==> s.owner == Some(t);
  }

  lemma LockKept(s: State, t: Thread)
    requires LockInv(s) && ShutdownInv(s) && Enabled(s, t)
    ensures LockInv(Next(s, t))
  {
    var s' := Next(s, t);
    MoverUpdatesLock(s, t);
    forall u ensures HoldsLock(s', u) <==> s'.owner == Some(u) {
      assert HoldsLock(s, u) <==> s.owner == Some(u);
      if u != t {
        OthersKeepLock(s, t, u);
      }
    }
  }

  lemma AppendKeepsQueue(s: State, j: nat)
    requires OrderInv(s) && QueueInv(s) && Enabled(s, Producer(j)) && s.producers[j] == Append
    ensures OrderInv(ProducerNext(s, j)) && QueueInv(ProducerNext(s, j))
  {
    var s' := ProducerNext(s, j);
    forall i | 0 <= i < |s.data| && HasAppended(s'.producers[i]) ensures i in s'.order {
      assert i == j || i in s.order;
      assert s'.order[|s.order|] == j;
    }
    assert Messages(s.data, s'.order) == Messages(s.data, s.order) + [s.data[j]];
  }

  lemma OtherProducerStepsKeepQueue(s: State, j: nat)
    requires OrderInv(s) && QueueInv(s) && Enabled(s, Producer(j)) && s.producers[j] != Append
    ensures OrderInv(ProducerNext(s, j)) && QueueInv(ProducerNext(s, j))
  {}

  /** A producer's signal finds its consumer, and any other step leaves the pending ones pending. */
  lemma ProducerKeepsWakeups(s: State, j: nat)
    requires NoLostWakeup(s) && Enabled(s, Producer(j))
    ensures NoLostWakeup(ProducerNext(s, j))
  {
    var s' := ProducerNext(s, j);
    if s.producers[j] == Append {
      assert s'.producers[j] == Signal;
    } else if i :| 0 <= i < |s.producers| && s.producers[i] == Signal && i != j {
      assert s'.producers[i] == Signal;
    }
  }

  lemma ProducerKeepsInv(s: State, j: nat)
    requires Inv(s) && Enabled(s, Producer(j))
    ensures Inv(Next(s, Producer(j)))
  {
    LockKept(s, Producer(j));
    if s.producers[j] == Append {
      AppendKeepsQueue(s, j);
    } else {
      OtherProducerStepsKeepQueue(s, j);
    }
    ProducerKeepsWakeups(s, j);
    assert HoldsLock(s, Producer(j)) <==> s.owner == Some(Producer(j));
    assert HoldsLock(s, Consumer) <==> s.owner == Some(Consumer);
  }

  lemma PopKeepsQueue(s: State)
    requires OrderInv(s) && QueueInv(s) && Enabled(s, Consumer) && s.consumer == Pop
    ensures OrderInv(ConsumerNext(s)) && QueueInv(ConsumerNext(s))
  {
    assert s.queue == [s.queue[0]] + s.queue[1..];
    assert s.processed + [s.queue[0]] + s.queue[1..] == s.processed + [] + s.queue;
  }

  lemma ProcessKeepsQueue(s: State)
    requires OrderInv(s) && QueueInv(s) && Enabled(s, Consumer) && s.consumer == Process
    ensures OrderInv(ConsumerNext(s)) && QueueInv(ConsumerNext(s))
  {
    assert (s.processed + [s.current]) + [] + s.queue == s.processed + [s.current] + s.queue;
  }

  lemma ConsumerKeepsQueue(s: State)
    requires OrderInv(s) && QueueInv(s) && Enabled(s, Consumer)
    ensures OrderInv(ConsumerNext(s)) && QueueInv(ConsumerNext(s))
  {
    if s.consumer == Pop {
      PopKeepsQueue(s);
    } else if s.consumer == Process {
      ProcessKeepsQueue(s);
    }
  }

  lemma ConsumerKeepsInv(s: State)
    requires Inv(s) && Enabled(s, Consumer)
    ensures Inv(Next(s, Consumer))
  {
    LockKept(s, Consumer);
    ConsumerKeepsQueue(s);
  }

  lemma StopperKeepsInv(s: State)
    requires Inv(s) && Enabled(s, Stopper)
    ensures Inv(Next(s, Stopper))
  {
    LockKept(s, Stopper);
    assert HoldsLock(s, Stopper) <==> s.owner == Some(Stopper);
    assert HoldsLock(s, Consumer) <==> s.owner == Some(Consumer);
  }

  lemma StepKeepsInv(s: State, t: Thread)
    requires Inv(s) && Enabled(s, t)
    ensures Inv(Next(s, t)) && Next(s, t).data == s.data
  {
    match t
    case Producer(j) => ProducerKeepsInv(s, j);
    case Consumer => ConsumerKeepsInv(s);
    case Stopper => StopperKeepsInv(s);
    case _ => LockKept(s, t);
  }

  ghost predicate InvFor(data: seq<int>, s: State) {
    Inv(s) && s.data == data
  }

  lemma RunKeepsInv(data: seq<int>, states: seq<State>, k: nat)
    requires Run(Initial(data), Step, states) && k < |states|
    ensures Inv(states[k]) && states[k].data == data
  {
    InitialInv(data);
    forall s, s' | InvFor(data, s) && Step(s, s') ensures InvFor(data, s') {
      var t :| Enabled(s, t) && s' == Next(s, t);
      StepKeepsInv(s, t);
    }
    InvariantAlongRun(Initial(data), Step, (s: State) => InvFor(data, s), states, k);
  }

  // ---------------------------------------------------------------- what the invariant gives

  /** When the consumer has exited, it has processed every message, each once, in the order
      in which the producers appended them, and the queue is empty. */
  lemma DrainedOnExit(s: State)
    requires Inv(s) && s.consumer == Exited
    ensures s.queue == [] && s.processed == Messages(s.data, s.order)
    ensures |s.order| == |s.data| && forall j: nat :: j < |s.data| ==> j in s.order
    ensures forall j, k :: 0 <= j < k < |s.order| ==> s.order[j] != s.order[k]
  {
    assert s.processed + [] + [] == s.processed;
    forall j: nat | j < |s.data| ensures j in s.order {
      assert HasAppended(s.producers[j]);
    }
    AllIndicesOnce(s.order, |s.data|);
  }

  lemma NonemptyNeedsRoom(order: seq<nat>, n: nat)
    requires order != [] && forall k :: 0 <= k < |order| ==> order[k] < n
    ensures n > 0
  {
    assert order[0] < n;
  }

  lemma WithoutTheLast(order: seq<nat>, n: nat, p: nat)
    requires p < |order| && n > 0 && order[p] == n - 1
    requires forall k :: 0 <= k < |order| ==> order[k] < n
    requires forall j, k :: 0 <= j < k < |order| ==> order[j] != order[k]
    requires forall j: nat :: j < n ==> j in order
    ensures var rest := order[..p] + order[p + 1..];
            && |rest| == |order| - 1
            && (forall k :: 0 <= k < |rest| ==> rest[k] < n - 1)
            && (forall j, k :: 0 <= j < k < |rest| ==> rest[j] != rest[k])
            && (forall j: nat :: j < n - 1 ==> j in rest)
  {
    var rest := order[..p] + order[p + 1..];
    forall j: nat | j < n - 1 ensures j in rest {
      assert j in order;
      var q :| 0 <= q < |order| && order[q] == j;
      assert rest[if q < p then q else q - 1] == j;
    }
    assert forall k :: 0 <= k < |rest| ==> rest[k] == order[if k < p then k else k + 1];
  }

  lemma {:induction false} AllIndicesOnce(order: seq<nat>, n: nat)
    requires forall k :: 0 <= k < |order| ==> order[k] < n
    requires forall j, k :: 0 <= j < k < |order| ==> order[j] != order[k]
    requires forall j: nat :: j < n ==> j in order
    ensures |order| == n
  {
    if order != [] {
      NonemptyNeedsRoom(order, n);
    }
    if n > 0 {
      var top: nat := n - 1;
      assert top in order;
      var p :| 0 <= p < |order| && order[p] == top;
      WithoutTheLast(order, n, p);
      AllIndicesOnce(order[..p] + order[p + 1..], n - 1);
    }
  }

  /** No reachable state is stuck before main returns, even if no spurious wakeup ever
      comes to the rescue. */
  lemma NeverStuck(s: State)
    requires Inv(s) && s.main != Returned
    ensures exists t :: t != Spurious && Enabled(s, t)
  {
    if s.owner.Some? {
      assert HoldsLock(s, s.owner.value);
      assert Enabled(s, s.owner.value);
    } else if j :| 0 <= j < |s.producers| && s.producers[j] != Done {
      assert Enabled(s, Producer(j)) by {
        assert HoldsLock(s, Producer(j)) <==> s.owner == Some(Producer(j));
      }
    } else if s.stopper == NotCreated || (s.main == JoinStopper && s.stopper == Stopped) {
      assert Enabled(s, Main);
    } else if s.stopper != Stopped {
      assert Enabled(s, Stopper);
    } else if s.consumer == Exited {
      assert Enabled(s, Main);
    } else {
      assert s.consumer != Blocked;
      assert HoldsLock(s, Consumer) <==> s.owner == Some(Consumer);
      assert Enabled(s, Consumer);
    }
  }

  lemma LockIsExclusive(s: State, t: Thread, u: Thread)
    requires LockInv(s) && HoldsLock(s, t) && HoldsLock(s, u)
    ensures t == u
  {
    assert s.owner == Some(t) && s.owner == Some(u);
  }

  /** What holds at every point of every run: at most one thread is in a critical section; the
      messages processed, the one in the consumer's hands and those queued are the appended ones
      in order, each appended once; a consumer that sleeps although there is work or
      the flag is down still has a signal coming, a pop always finds a message, a waiting
      thread had nothing to do, and somebody can move without a spurious wakeup. */
  lemma EveryStateIsSafe(data: seq<int>, states: seq<State>, k: nat)
    requires Run(Initial(data), Step, states) && k < |states|
    ensures var s := states[k];
            && (forall t, u :: HoldsLock(s, t) && HoldsLock(s, u) ==> t == u)
            && s.data == data && OrderInv(s)
            && s.processed + InHand(s) + s.queue == Messages(data, s.order)
            && (s.consumer == Blocked && (s.queue != [] || !s.running) ==> SignalPending(s))
            && (s.consumer == Pop ==> s.queue != [])
            && (s.consumer == Wait ==> s.running && s.queue == [])
            && (s.main != Returned ==> exists t :: t != Spurious && Enabled(s, t))
  {
    RunKeepsInv(data, states, k);
    forall t, u | HoldsLock(states[k], t) && HoldsLock(states[k], u) ensures t == u {
      LockIsExclusive(states[k], t, u);
    }
    if states[k].main != Returned {
      NeverStuck(states[k]);
    }
  }

  // ---------------------------------------------------------------- what a step may do, and when

  /** Who does what, and with whose lock: the list and the flag change under the mutex, a producer
      signals while it holds it and the stopper after it has given it up, and the consumer uses a
      message without it. */
  ghost predicate EffectsInOrder(s: State, t: Thread, s': State) {
    && (s'.queue != s.queue || s'.order != s.order || s'.running != s.running ==>
          (t.Producer? || t in {Consumer, Stopper}) && s.owner == s'.owner == Some(t))
    && (s'.order != s.order ==> t.Producer?)
    && (s'.running != s.running ==> t == Stopper && s.running && s.main == JoinStopper)
    && (s'.processed != s.processed ==> t == Consumer && s.owner != Some(Consumer))
    && (s.consumer == Blocked && s'.consumer != Blocked ==>
          && s'.owner == s.owner
          && (t.Producer? ==> s.owner == Some(t))
          && (t == Stopper ==> s.owner != Some(t) && !s.running)
          && (t.Producer? || t in {Stopper, Spurious}))
    && (s'.consumer == Blocked && s.consumer != Blocked ==>
          t == Consumer && s.owner == Some(t) && s'.owner == None && s.running && s.queue == [])
  }

  lemma StepsHaveOrderedEffects(s: State, t: Thread)
    requires Inv(s) && Enabled(s, t)
    ensures EffectsInOrder(s, t, Next(s, t))
  {
    assert HoldsLock(s, t) <==> s.owner == Some(t);
  }

  lemma EveryStepHasOrderedEffects(data: seq<int>, states: seq<State>, k: nat)
    requires Run(Initial(data), Step, states) && k + 1 < |states|
    ensures exists t :: Enabled(states[k], t) && states[k + 1] == Next(states[k], t)
                        && EffectsInOrder(states[k], t, states[k + 1])
  {
    RunKeepsInv(data, states, k);
    assert Step(states[k], states[k + 1]);
    var t :| Enabled(states[k], t) && states[k + 1] == Next(states[k], t);
    StepsHaveOrderedEffects(states[k], t);
  }

  // ---------------------------------------------------------------- who waits, and for what

  predicate AsksForLock(s: State, t: Thread) {
    match t
    case Producer(j) => j < |s.producers| && s.producers[j] == Lock
    case Consumer => s.consumer in {Acquire, Reacquire}
    case Stopper => s.stopper == TakeLock
    case _ => false
  }

  /** The thread has nothing more to do, or has not been started. */
  predicate Inactive(s: State, t: Thread) {
    match t
    case Producer(j) => j >= |s.producers| || s.producers[j] == Done
    case Consumer => s.consumer == Exited
    case Stopper => s.stopper in {NotCreated, Stopped}
    case Main => s.main == Returned
    case Spurious => false
  }

  /** What keeps an active thread from its next step. */
  ghost predicate MayMove(s: State, t: Thread) {
    if AsksForLock(s, t) then forall u :: !HoldsLock(s, u)
    else
      match t
      case Consumer => s.consumer != Blocked
      case Main =>
        && (s.main == JoinProducers ==> forall j :: 0 <= j < |s.producers| ==> s.producers[j] == Done)
        && (s.main == JoinStopper ==> s.stopper == Stopped)
        && (s.main == JoinConsumer ==> s.consumer == Exited)
      case Spurious => s.consumer == Blocked
      case _ => true
  }

  /** A thread waits for the mutex exactly while some thread holds it, the consumer for its wakeup
      and main for the threads it joins; nobody waits anywhere else. In particular a consumer
      that takes the lock does so whether or not there is a message. */
  lemma WaitsExactly(s: State, t: Thread)
    requires Inv(s)
    ensures Enabled(s, t) <==> !Inactive(s, t) && MayMove(s, t)
  {
    if AsksForLock(s, t) {
      if s.owner.Some? {
        assert HoldsLock(s, s.owner.value);
      } else {
        forall u ensures !HoldsLock(s, u) {
          assert HoldsLock(s, u) <==> s.owner == Some(u);
        }
      }
    }
  }

  lemma EveryStateWaitsExactly(data: seq<int>, states: seq<State>, k: nat, t: Thread)
    requires Run(Initial(data), Step, states) && k < |states|
    ensures Enabled(states[k], t) <==> !Inactive(states[k], t) && MayMove(states[k], t)
  {
    RunKeepsInv(data, states, k);
    WaitsExactly(states[k], t);
  }

  const FALLS_ASLEEP := [Consumer, Consumer, Consumer]

  lemma TurnsAreSteps()
    ensures forall s, t :: Turn(s, t) == s || Step(s, Turn(s, t))
  {
    forall s, t ensures Turn(s, t) == s || Step(s, Turn(s, t)) {
      if Enabled(s, t) {
        assert Step(s, Next(s, t));
      }
    }
  }

  lemma ConsumerFirst(data: seq<int>)
    ensures After(Initial(data), Turn, FALLS_ASLEEP) == Initial(data).(consumer := Blocked)
  {
    ThreeTurns(Initial(data), Turn, Consumer);
    LockTestWait(data);
  }

  lemma LockTestWait(data: seq<int>)
    ensures Turn(Turn(Turn(Initial(data), Consumer), Consumer), Consumer) == Initial(data).(consumer := Blocked)
  {}

  /** The consumer really sleeps: if it is faster than the producers, three turns take it from the
      lock to the wait, with the queue empty and the mutex free. */
  lemma ConsumerSleeps(data: seq<int>) returns (states: seq<State>)
    ensures Run(Initial(data), Step, states)
    ensures var last := states[|states| - 1];
            && last == After(Initial(data), Turn, FALLS_ASLEEP)
            && last.consumer == Blocked && last.queue == [] && last.owner == None
  {
    TurnsAreSteps();
    states := AfterIsReached(Initial(data), Step, Turn, FALLS_ASLEEP);
    ConsumerFirst(data);
  }

  /** And it wakes up for nothing, whereupon the next two turns put it to the test of the loop
      and back to the wait. */
  lemma ConsumerWakesSpuriously(data: seq<int>) returns (states: seq<State>)
    ensures Run(Initial(data), Step, states)
    ensures var last := states[|states| - 1];
            && last.consumer == Wait && last.queue == [] && last.spurious == 1 && last.owner == Some(Consumer)
  {
    states := ConsumerSleeps(data);
    ConsumerFirst(data);
    states := OneMoreStep(data, states, Spurious);
    states := OneMoreStep(data, states, Consumer);
    states := OneMoreStep(data, states, Consumer);
  }

  lemma OneMoreStep(data: seq<int>, states: seq<State>, t: Thread) returns (longer: seq<State>)
    requires Run(Initial(data), Step, states) && Enabled(states[|states| - 1], t)
    ensures Run(Initial(data), Step, longer)
    ensures longer[|longer| - 1] == Next(states[|states| - 1], t)
  {
    var last := states[|states| - 1];
    assert Step(last, Next(last, t));
    RunExtends(Initial(data), Step, states, Next(last, t));
    longer := states + [Next(last, t)];
  }

  /** Or for a message: the first producer's signal, sent while it still holds the mutex, wakes it. */
  lemma ConsumerIsSignalled(data: seq<int>) returns (states: seq<State>)
    requires data != []
    ensures Run(Initial(data), Step, states)
    ensures var last := states[|states| - 1];
            && last.consumer == Reacquire && last.queue == [data[0]] && last.spurious == 0
            && last.owner == Some(Producer(0)) && !Enabled(last, Consumer)
  {
    states := ConsumerSleeps(data);
    ConsumerFirst(data);
    states := OneMoreStep(data, states, Producer(0));
    states := OneMoreStep(data, states, Producer(0));
    states := OneMoreStep(data, states, Producer(0));
    states := OneMoreStep(data, states, Producer(0));
  }

  // ---------------------------------------------------------------- termination

  function ProducerSteps(pc: ProducerPc): nat {
    match pc case Allocate => 5 case Lock => 4 case Append => 3 case Signal => 2 case Unlock => 1 case Done => 0
  }

  function StopperSteps(pc: StopperPc): nat {
    match pc
    case NotCreated => 4
    case TakeLock => 4
    case ClearRunning => 3
    case DropLock => 2
    case SignalStop => 1
    case Stopped => 0
  }

  function MainSteps(pc: MainPc): nat {
    match pc case JoinProducers => 3 case JoinStopper => 2 case JoinConsumer => 1 case Returned => 0
  }

  /** Steps to the next rest point, not counting messages still queued. */
  function ConsumerSteps(pc: ConsumerPc): nat {
    match pc
    case Release => 7
    case Process => 6
    case Acquire => 5
    case Reacquire => 5
    case TestLoop => 4
    case TestExit => 3
    case Pop => 2
    case Wait => 1
    case Quit => 1
    case Blocked => 0
    case Exited => 0
  }

  /** A queued message is worth six consumer steps, and a step of a producer or of the stopper
      seven, since it may enqueue a message or wake the consumer up. */
  function Potential(s: State): nat {
    7 * Total(s.producers, ProducerSteps) + 7 * StopperSteps(s.stopper) + MainSteps(s.main)
    + 6 * |s.queue| + ConsumerSteps(s.consumer)
  }

  function Credit(s: State): int {
    Potential(s) - 6 * s.spurious
  }

  lemma ProducerStepLowersCredit(s: State, j: nat)
    requires Enabled(s, Producer(j))
    ensures Credit(ProducerNext(s, j)) < Credit(s)
  {
    var s' := ProducerNext(s, j);
    TotalAfterUpdate(s.producers, j, s'.producers[j], ProducerSteps);
    assert ProducerSteps(s'.producers[j]) == ProducerSteps(s.producers[j]) - 1;
    assert ConsumerSteps(s'.consumer) <= ConsumerSteps(s.consumer) + 5;
  }

  lemma ConsumerStepLowersCredit(s: State)
    requires Enabled(s, Consumer)
    ensures Credit(ConsumerNext(s)) < Credit(s)
  {}

  lemma StepLowersCredit(s: State, t: Thread)
    requires ShutdownInv(s) && Enabled(s, t)
    ensures Credit(Next(s, t)) < Credit(s)
  {
    match t
    case Producer(j) => ProducerStepLowersCredit(s, j);
    case Consumer => ConsumerStepLowersCredit(s);
    case _ =>
  }

  lemma StepPays(data: seq<int>, s: State, s': State)
    requires InvFor(data, s) && Step(s, s')
    ensures InvFor(data, s') && Credit(s') < Credit(s)
  {
    var t :| Enabled(s, t) && s' == Next(s, t);
    StepKeepsInv(s, t);
    StepLowersCredit(s, t);
  }

  lemma InitialCredit(data: seq<int>)
    ensures Credit(Initial(data)) == 35 * |data| + 36
  {
    TotalOfEqualWeights(Initial(data).producers, ProducerSteps, 5);
  }

  lemma RunLowersCredit(data: seq<int>, states: seq<State>)
    requires Run(Initial(data), Step, states)
    ensures |states| - 1 + Credit(states[|states| - 1]) <= Credit(Initial(data))
  {
    InitialInv(data);
    forall s, s' | InvFor(data, s) && Step(s, s')
      ensures InvFor(data, s') && Credit(s') < Credit(s)
    {
      StepPays(data, s, s');
    }
    MeasureBoundsRun(Initial(data), Step, (s: State) => InvFor(data, s), Credit, states, |states| - 1);
  }

  /** Only spurious wakeups can make a run longer: with k producers and w of them it has at
      most 35k + 36 + 6w steps. */
  lemma RunIsBounded(data: seq<int>, states: seq<State>)
    requires Run(Initial(data), Step, states)
    ensures |states| - 1 <= 35 * |data| + 36 + 6 * states[|states| - 1].spurious
  {
    RunLowersCredit(data, states);
    InitialCredit(data);
  }

  /** A run that only a spurious wakeup could extend, if anything, has ended: main has returned
      and every message was processed once, in the order of the appends. */
  lemma EveryRunDrainsTheQueue(data: seq<int>, states: seq<State>)
    requires Run(Initial(data), Step, states)
    ensures var last := states[|states| - 1];
            (forall t :: Enabled(last, t) ==> t == Spurious) ==>
              && last.main == Returned && last.queue == []
              && OrderInv(last) && last.data == data && |last.order| == |data|
              && last.processed == Messages(data, last.order)
  {
    RunKeepsInv(data, states, |states| - 1);
    var last := states[|states| - 1];
    if forall t :: Enabled(last, t) ==> t == Spurious {
      if last.main != Returned {
        NeverStuck(last);
      }
      DrainedOnExit(last);
    }
  }
}
