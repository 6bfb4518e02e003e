/** Homework2/level3.c: one producer, any number of consumers, an eight-slot ring buffer,
    two counting semaphores and a mutex that only the consumers take.

    A state holds the globals and one program counter per thread. Every semaphore operation,
    lock operation, slot access, index update and counter update is a step of its own, under
    sequential consistency. `taken` records the values the consumers have read, in order;
    `reported` is the sum main prints. A slot access is enabled only inside the buffer; the
    invariant shows that this never holds anybody up. */
module ProducerConsumer {
  import opened Options
  import opened Sums
  import opened Totals
  import opened Transitions

  const BUFFER_SIZE := 8

  datatype ProducerPc = AwaitSpace | WriteSlot | AdvanceTail | PostItem | Finished

  datatype ConsumerPc =
    | AwaitItem | Lock | ReadSlot | AdvanceHead | AddSquare | CountItem | Unlock | PostSpace

  datatype MainPc = JoinProducer | Spin | Report | Exited

  datatype Consumer = Consumer(pc: ConsumerPc, val: int)

  datatype State = State(
    n: nat,
    buffer: seq<int>, head: nat, tail: nat,
    available: nat, space: nat,
    owner: Option<nat>,
    totalSum: int, processed: int,
    producer: ProducerPc, i: nat,
    consumers: seq<Consumer>,
    main: MainPc, reported: int,
    taken: seq<int>)

  datatype Thread = Producer | ConsumerAt(c: nat) | Main

  function Initial(n: nat, m: nat): State {
    State(n, seq(BUFFER_SIZE, _ => 0), 0, 0, 0, BUFFER_SIZE, None, 0, 0,
          if n == 0 then Finished else AwaitSpace, 1,
          seq(m, _ => Consumer(AwaitItem, 0)), JoinProducer, 0, [])
  }

  // ---------------------------------------------------------------- the steps

  predicate ProducerEnabled(s: State) {
    match s.producer
    case AwaitSpace => s.space > 0
    case WriteSlot => s.tail < |s.buffer|
    case Finished => false
    case _ => true
  }

  function ProducerNext(s: State): State
    requires ProducerEnabled(s)
  {
    match s.producer
    case AwaitSpace => s.(space := s.space - 1, producer := WriteSlot)
    case WriteSlot => s.(buffer := s.buffer[s.tail := s.i], producer := AdvanceTail)
    case AdvanceTail => s.(tail := (s.tail + 1) % BUFFER_SIZE, producer := PostItem)
    case PostItem =>
      s.(available := s.available + 1, i := s.i + 1,
         producer := if s.i + 1 <= s.n then AwaitSpace else Finished)
  }

  predicate ConsumerEnabled(s: State, c: nat) {
    && c < |s.consumers|
    && match s.consumers[c].pc
       case AwaitItem => s.available > 0
       case Lock => s.owner == None
       case ReadSlot => s.head < |s.buffer|
       case _ => true
  }

  function ConsumerNext(s: State, c: nat): State
    requires ConsumerEnabled(s, c)
  {
    var me := s.consumers[c];
    match me.pc
    case AwaitItem => Move(s, c, me.(pc := Lock)).(available := s.available - 1)
    case Lock => Move(s, c, me.(pc := ReadSlot)).(owner := Some(c))
    case ReadSlot =>
      Move(s, c, Consumer(AdvanceHead, s.buffer[s.head])).(taken := s.taken + [s.buffer[s.head]])
    case AdvanceHead => Move(s, c, me.(pc := AddSquare)).(head := (s.head + 1) % BUFFER_SIZE)
    case AddSquare => Move(s, c, me.(pc := CountItem)).(totalSum := s.totalSum + me.val * me.val)
    case CountItem => Move(s, c, me.(pc := Unlock)).(processed := s.processed + 1)
    case Unlock => Move(s, c, me.(pc := PostSpace)).(owner := None)
    case PostSpace => Move(s, c, me.(pc := AwaitItem)).(space := s.space + 1)
  }

  function Move(s: State, c: nat, me: Consumer): State
    requires c < |s.consumers|
  {
    s.(consumers := s.consumers[c := me])
  }

  /** A failing test of main's busy loop changes nothing, so only the test that leaves the
      loop is a step. */
  predicate MainEnabled(s: State) {
    match s.main
    case JoinProducer => s.producer == Finished
    case Spin => s.processed >= s.n
    case Report => true
    case Exited => false
  }

  function MainNext(s: State): State
    requires MainEnabled(s)
  {
    match s.main
    case JoinProducer => s.(main := Spin)
    case Spin => s.(main := Report)
    case Report => s.(main := Exited, reported := s.totalSum)
  }

  predicate Enabled(s: State, t: Thread) {
    && s.main != Exited // returning from main ends the process
    && match t
       case Producer => ProducerEnabled(s)
       case ConsumerAt(c) => ConsumerEnabled(s, c)
       case Main => MainEnabled(s)
  }

  function Next(s: State, t: Thread): State
    requires Enabled(s, t)
  {
    match t
    case Producer => ProducerNext(s)
    case ConsumerAt(c) => ConsumerNext(s, c)
    case Main => MainNext(s)
  }

  ghost predicate Step(s: State, s': State) {
    exists t :: Enabled(s, t) && s' == Next(s, t)
  }

  /** A turn of the scheduler for a thread: its next step, or nothing if it is blocked. */
  function Turn(s: State, t: Thread): State {
    if Enabled(s, t) then Next(s, t) else s
  }

  // ---------------------------------------------------------------- the invariant

  /** Consumers holding an item token whose slot they have not read yet. */
  function Claims(c: Consumer): nat {
    if c.pc in {Lock, ReadSlot} then 1 else 0
  }

  /** Consumers that have read a slot and not yet given its space back. */
  function Drains(c: Consumer): nat {
    if c.pc in {AwaitItem, Lock, ReadSlot} then 0 else 1
  }

  /** Consumers between their sem_wait and their sem_post. */
  function Between(c: Consumer): nat {
    if c.pc == AwaitItem then 0 else 1
  }

  function ProducerBetween(s: State): nat {
    if s.producer in {WriteSlot, AdvanceTail, PostItem} then 1 else 0
  }

  /** Slots written so far, and index updates finished so far. */
  function Written(s: State): int {
    s.i - 1 + if s.producer in {AdvanceTail, PostItem} then 1 else 0
  }

  function TailMoves(s: State): int {
    s.i - 1 + if s.producer == PostItem then 1 else 0
  }

  predicate InCriticalSection(c: Consumer) {
    c.pc in {ReadSlot, AdvanceHead, AddSquare, CountItem, Unlock}
  }

  /** Where the holder of the mutex stands; AwaitItem when the mutex is free. */
  function HolderPc(s: State): ConsumerPc {
    if s.owner.Some? && s.owner.value < |s.consumers| then s.consumers[s.owner.value].pc else AwaitItem
  }

  function Lag(s: State, pcs: set<ConsumerPc>): nat {
    if HolderPc(s) in pcs then 1 else 0
  }

  ghost predicate ProducerInv(s: State) {
    && |s.buffer| == BUFFER_SIZE
    && 1 <= s.i <= s.n + 1
    && (s.producer == Finished <==> s.i == s.n + 1)
    && s.tail == TailMoves(s) % BUFFER_SIZE
  }

  ghost predicate MutexInv(s: State) {
    && (s.owner.Some? ==> s.owner.value < |s.consumers| && InCriticalSection(s.consumers[s.owner.value]))
    && (forall c :: 0 <= c < |s.consumers| && InCriticalSection(s.consumers[c]) ==> s.owner == Some(c))
  }

  ghost predicate TokenInv(s: State) {
    && s.i - 1 == s.available + Total(s.consumers, Claims) + |s.taken|
    && BUFFER_SIZE + |s.taken| == s.space + Total(s.consumers, Drains) + s.i - 1 + ProducerBetween(s)
  }

  ghost predicate SlotInv(s: State)
    requires |s.buffer| == BUFFER_SIZE
  {
    forall k: nat :: |s.taken| <= k < Written(s) ==> s.buffer[k % BUFFER_SIZE] == k + 1
  }

  ghost predicate ConsumerInv(s: State) {
    && (forall k :: 0 <= k < |s.taken| ==> s.taken[k] == k + 1)
    && (HolderPc(s) in {AdvanceHead, AddSquare, CountItem} ==> |s.taken| >= 1)
    && (HolderPc(s) in {AdvanceHead, AddSquare} ==> s.consumers[s.owner.value].val == |s.taken|)
    && s.head == (|s.taken| - Lag(s, {AdvanceHead})) % BUFFER_SIZE
    && s.totalSum == SumSoFar(s)
    && s.processed == |s.taken| - Lag(s, {AdvanceHead, AddSquare, CountItem})
  }

  function SumSoFar(s: State): nat {
    var done := |s.taken| - Lag(s, {AdvanceHead, AddSquare});
    if done < 0 then 0 else SquaresTo(done)
  }

  ghost predicate MainInv(s: State) {
    && (s.main != JoinProducer ==> s.producer == Finished)
    && (s.main in {Report, Exited} ==> s.processed == s.n)
    && (s.main == Exited ==> s.reported == SquaresTo(s.n))
  }

  ghost predicate Inv(s: State) {
    ProducerInv(s) && MutexInv(s) && TokenInv(s) && SlotInv(s) && ConsumerInv(s) && MainInv(s)
  }

  lemma InitialInv(n: nat, m: nat)
    ensures Inv(Initial(n, m))
  {
    var s := Initial(n, m);
    TotalOfEqualWeights(s.consumers, Claims, 0);
    TotalOfEqualWeights(s.consumers, Drains, 0);
  }

  /** The producer never outruns the consumers by more than the buffer, nor they it. */
  lemma WindowFits(s: State)
    requires Inv(s)
    ensures |s.taken| <= s.i - 1 <= Written(s)
    ensures s.i - 1 + ProducerBetween(s) - |s.taken| <= BUFFER_SIZE
    ensures HolderPc(s) == ReadSlot ==> |s.taken| < s.i - 1
  {
    if HolderPc(s) == ReadSlot {
      TotalAtLeast(s.consumers, s.owner.value, Claims);
    }
  }

  lemma NextSlot(x: nat)
    ensures (x % BUFFER_SIZE + 1) % BUFFER_SIZE == (x + 1) % BUFFER_SIZE
  {}

  lemma SlotsDiffer(j: nat, k: nat)
    requires j < k < j + BUFFER_SIZE
    ensures j % BUFFER_SIZE != k % BUFFER_SIZE
  {}

  lemma ProducerKeepsSlots(s: State)
    requires Inv(s) && ProducerEnabled(s)
    ensures ProducerInv(ProducerNext(s)) && SlotInv(ProducerNext(s))
  {
    WindowFits(s);
    if s.producer == WriteSlot {
      forall k: nat | |s.taken| <= k < s.i - 1 ensures k % BUFFER_SIZE != s.tail {
        SlotsDiffer(k, s.i - 1);
      }
    } else if s.producer == AdvanceTail {
      NextSlot(s.i - 1);
    }
  }

  lemma ProducerKeepsInv(s: State)
    requires Inv(s) && ProducerEnabled(s) && s.main != Exited
    ensures Inv(ProducerNext(s))
  {
    ProducerKeepsSlots(s);
  }

  /** A consumer's step changes its own entry of the consumers and nothing of the other threads'. */
  lemma ConsumerMoves(s: State, c: nat)
    requires ConsumerEnabled(s, c)
    ensures var s' := ConsumerNext(s, c);
            && |s'.consumers| == |s.consumers|
            && s'.consumers == s.consumers[c := s'.consumers[c]]
            && s'.n == s.n && s'.i == s.i && s'.producer == s.producer && s'.main == s.main
  {}

  /** What the step takes from a semaphore the consumer's entry gains, and the other way round. */
  lemma ConsumerMovesTokens(s: State, c: nat)
    requires ConsumerEnabled(s, c)
    ensures var s' := ConsumerNext(s, c);
            var me, me' := s.consumers[c], s'.consumers[c];
            && s'.available + Claims(me') + |s'.taken| == s.available + Claims(me) + |s.taken|
            && s'.space + Drains(me') - |s'.taken| == s.space + Drains(me) - |s.taken|
  {}

  lemma ConsumerKeepsTokens(s: State, c: nat)
    requires TokenInv(s) && ConsumerEnabled(s, c)
    ensures TokenInv(ConsumerNext(s, c))
  {
    var s' := ConsumerNext(s, c);
    ConsumerMoves(s, c);
    ConsumerMovesTokens(s, c);
    TotalAfterUpdate(s.consumers, c, s'.consumers[c], Claims);
    TotalAfterUpdate(s.consumers, c, s'.consumers[c], Drains);
  }

  lemma ConsumerKeepsMutex(s: State, c: nat)
    requires MutexInv(s) && ConsumerEnabled(s, c)
    ensures MutexInv(ConsumerNext(s, c))
    ensures InCriticalSection(s.consumers[c]) ==> HolderPc(s) == s.consumers[c].pc
    ensures InCriticalSection(ConsumerNext(s, c).consumers[c]) ==>
              HolderPc(ConsumerNext(s, c)) == ConsumerNext(s, c).consumers[c].pc
    ensures !InCriticalSection(s.consumers[c]) && s.consumers[c].pc != Lock ==>
              HolderPc(ConsumerNext(s, c)) == HolderPc(s)
    ensures s.consumers[c].pc in {Lock, Unlock} ==>
              HolderPc(s) in {AwaitItem, Unlock} && HolderPc(ConsumerNext(s, c)) in {AwaitItem, ReadSlot}
  {}

  lemma ConsumerKeepsCounters(s: State, c: nat)
    requires Inv(s) && ConsumerEnabled(s, c)
    ensures ConsumerInv(ConsumerNext(s, c))
  {
    WindowFits(s);
    ConsumerKeepsMutex(s, c);
    var pc := s.consumers[c].pc;
    if pc == AdvanceHead {
      NextSlot(|s.taken| - 1);
    }
  }

  /** A read takes the front slot out of the window and leaves the others as they are. */
  lemma ConsumerKeepsSlots(s: State, c: nat)
    requires ProducerInv(s) && SlotInv(s) && MainInv(s) && ConsumerEnabled(s, c)
    requires s.main == JoinProducer || s.main == Spin || s.consumers[c].pc != CountItem
    requires s.main != Exited
    ensures var s' := ConsumerNext(s, c);
            ProducerInv(s') && SlotInv(s') && MainInv(s')
  {}

  lemma ConsumerKeepsInv(s: State, c: nat)
    requires Inv(s) && ConsumerEnabled(s, c) && s.main != Exited
    ensures Inv(ConsumerNext(s, c))
  {
    WindowFits(s);
    if s.consumers[c].pc == CountItem {
      assert HolderPc(s) == CountItem;
    }
    ConsumerKeepsSlots(s, c);
    ConsumerKeepsTokens(s, c);
    ConsumerKeepsMutex(s, c);
    ConsumerKeepsCounters(s, c);
  }

  lemma MainKeepsInv(s: State)
    requires Inv(s) && MainEnabled(s)
    ensures Inv(MainNext(s))
  {
    WindowFits(s);
  }

  lemma StepKeepsInv(s: State, s': State)
    requires Inv(s) && Step(s, s')
    ensures Inv(s') && s'.n == s.n && |s'.consumers| == |s.consumers|
  {
    var t :| Enabled(s, t) && s' == Next(s, t);
    match t
    case Producer => ProducerKeepsInv(s);
    case ConsumerAt(c) => ConsumerKeepsInv(s, c);
    case Main => MainKeepsInv(s);
  }

  ghost predicate InvFor(n: nat, m: nat, s: State) {
    Inv(s) && s.n == n && |s.consumers| == m
  }

  lemma RunKeepsInv(n: nat, m: nat, states: seq<State>, k: nat)
    requires Run(Initial(n, m), Step, states) && k < |states|
    ensures InvFor(n, m, states[k])
  {
    InitialInv(n, m);
    forall s, s' | InvFor(n, m, s) && Step(s, s') ensures InvFor(n, m, s') {
      StepKeepsInv(s, s');
    }
    InvariantAlongRun(Initial(n, m), Step, (s: State) => InvFor(n, m, s), states, k);
  }

  // ---------------------------------------------------------------- refinement of a FIFO

  /** The atomic queue the ring buffer stands for: values waiting, and values handed out. */
  datatype Fifo = Fifo(waiting: seq<int>, out: seq<int>)

  predicate Push(q: Fifo, v: int, q': Fifo) {
    |q.waiting| < BUFFER_SIZE && q' == q.(waiting := q.waiting + [v])
  }

  predicate Pop(q: Fifo, v: int, q': Fifo) {
    q.waiting != [] && v == q.waiting[0] && q' == Fifo(q.waiting[1..], q.out + [v])
  }

  /** The slot the next reader will take: `head`, unless its reader has not moved it yet. */
  function FrontSlot(s: State): nat {
    (s.head + Lag(s, {AdvanceHead})) % BUFFER_SIZE
  }

  /** Slots written and unread, counted by the semaphore and the tokens in flight. */
  function Unread(s: State): nat {
    s.available + Total(s.consumers, Claims) + if s.producer in {AdvanceTail, PostItem} then 1 else 0
  }

  /** The k-th slot of the window of unread values. */
  function UnreadSlot(s: State, k: nat): nat {
    (FrontSlot(s) + k) % BUFFER_SIZE
  }

  function Abstract(s: State): Fifo
    requires |s.buffer| == BUFFER_SIZE
  {
    Fifo(seq(Unread(s), k requires k >= 0 => SlotAfter(s.buffer, FrontSlot(s), k)), s.taken)
  }

  function SlotAfter(buffer: seq<int>, front: nat, k: nat): int
    requires |buffer| == BUFFER_SIZE
  {
    buffer[(front + k) % BUFFER_SIZE]
  }

  lemma SlotArithmetic(x: nat, k: nat)
    ensures (x % BUFFER_SIZE + k) % BUFFER_SIZE == (x + k) % BUFFER_SIZE
  {}

  lemma FrontSlotExact(s: State)
    requires ConsumerInv(s)
    ensures FrontSlot(s) == |s.taken| % BUFFER_SIZE
  {
    if HolderPc(s) == AdvanceHead {
      NextSlot(|s.taken| - 1);
    }
  }

  lemma UnreadExact(s: State)
    requires Inv(s)
    ensures Unread(s) == Written(s) - |s.taken| <= BUFFER_SIZE
  {
    WindowFits(s);
  }

  lemma SlotHolds(s: State, k: nat)
    requires |s.buffer| == BUFFER_SIZE && SlotInv(s) && FrontSlot(s) == |s.taken| % BUFFER_SIZE
    requires |s.taken| + k < Written(s)
    ensures SlotAfter(s.buffer, FrontSlot(s), k) == |s.taken| + 1 + k
  {
    SlotArithmetic(|s.taken|, k);
    var slot := |s.taken| + k;
    assert s.buffer[slot % BUFFER_SIZE] == slot + 1;
  }

  /** lo + 1, lo + 2, ..., hi */
  function Counting(lo: nat, hi: nat): seq<int>
    requires lo <= hi
  {
    seq(hi - lo, k => lo + 1 + k)
  }

  /** The buffer window really is the run of consecutive integers still to be read. */
  lemma WindowContents(s: State)
    requires Inv(s)
    ensures |s.taken| <= Written(s) && Abstract(s) == Fifo(Counting(|s.taken|, Written(s)), s.taken)
  {
    FrontSlotExact(s);
    UnreadExact(s);
    forall k: nat {:trigger SlotAfter(s.buffer, FrontSlot(s), k)} | k < Unread(s)
      ensures SlotAfter(s.buffer, FrontSlot(s), k) == |s.taken| + 1 + k
    {
      SlotHolds(s, k);
    }
  }

  predicate WritesASlot(s: State, t: Thread) {
    t == Producer && s.producer == WriteSlot
  }

  predicate ReadsASlot(s: State, t: Thread) {
    t.ConsumerAt? && t.c < |s.consumers| && s.consumers[t.c].pc == ReadSlot
  }

  /** What one step does to the queue the buffer stands for. */
  ghost predicate FifoEffect(s: State, t: Thread, s': State)
    requires |s.buffer| == |s'.buffer| == BUFFER_SIZE && |s.consumers| == |s'.consumers|
  {
    if WritesASlot(s, t) then
      Push(Abstract(s), s.i, Abstract(s'))
    else if ReadsASlot(s, t) then
      Pop(Abstract(s), s'.consumers[t.c].val, Abstract(s'))
    else
      Abstract(s') == Abstract(s)
  }

  /** How the two counts that bound the window move. */
  lemma WindowMoves(s: State, t: Thread)
    requires Inv(s) && Enabled(s, t)
    ensures var s' := Next(s, t);
            && Written(s') == Written(s) + (if WritesASlot(s, t) then 1 else 0)
            && (!ReadsASlot(s, t) ==> s'.taken == s.taken)
            && (WritesASlot(s, t) ==> s.i == Written(s) + 1 <= |s.taken| + BUFFER_SIZE)
  {
    WindowFits(s);
  }

  lemma ReadTakesTheNext(s: State, c: nat)
    requires Inv(s) && Enabled(s, ConsumerAt(c)) && s.consumers[c].pc == ReadSlot
    ensures var s' := Next(s, ConsumerAt(c));
            && |s.taken| < Written(s)
            && s'.consumers[c].val == |s.taken| + 1
            && s'.taken == s.taken + [|s.taken| + 1]
  {
    WindowFits(s);
    ConsumerKeepsMutex(s, c);
    FrontSlotExact(s);
    SlotHolds(s, 0);
  }

  lemma BothWindows(s: State, t: Thread)
    requires Inv(s) && Enabled(s, t)
    ensures var s' := Next(s, t);
            && Inv(s') && |s'.consumers| == |s.consumers|
            && |s.taken| <= Written(s) && |s'.taken| <= Written(s')
            && Abstract(s) == Fifo(Counting(|s.taken|, Written(s)), s.taken)
            && Abstract(s') == Fifo(Counting(|s'.taken|, Written(s')), s'.taken)
  {
    assert Step(s, Next(s, t));
    StepKeepsInv(s, Next(s, t));
    WindowContents(s);
    WindowContents(Next(s, t));
  }

  lemma CountingGrows(lo: nat, hi: nat)
    requires lo <= hi
    ensures Counting(lo, hi) + [hi + 1] == Counting(lo, hi + 1)
    ensures lo < hi ==> Counting(lo, hi) != [] && Counting(lo, hi)[0] == lo + 1
                        && Counting(lo, hi)[1..] == Counting(lo + 1, hi)
  {}

  lemma WriteRefines(s: State)
    requires Inv(s) && Enabled(s, Producer) && s.producer == WriteSlot
    ensures var s' := Next(s, Producer);
            Inv(s') && |s'.consumers| == |s.consumers| && Push(Abstract(s), s.i, Abstract(s'))
  {
    BothWindows(s, Producer);
    WindowMoves(s, Producer);
    CountingGrows(|s.taken|, Written(s));
  }

  lemma ReadRefines(s: State, c: nat)
    requires Inv(s) && Enabled(s, ConsumerAt(c)) && s.consumers[c].pc == ReadSlot
    ensures var s' := Next(s, ConsumerAt(c));
            Inv(s') && |s'.consumers| == |s.consumers| && Pop(Abstract(s), s'.consumers[c].val, Abstract(s'))
  {
    BothWindows(s, ConsumerAt(c));
    WindowMoves(s, ConsumerAt(c));
    ReadTakesTheNext(s, c);
    CountingGrows(|s.taken|, Written(s));
  }

  lemma OtherStepsStutter(s: State, t: Thread)
    requires Inv(s) && Enabled(s, t) && !WritesASlot(s, t) && !ReadsASlot(s, t)
    ensures var s' := Next(s, t);
            Inv(s') && |s'.consumers| == |s.consumers| && Abstract(s') == Abstract(s)
  {
    BothWindows(s, t);
    WindowMoves(s, t);
  }

  /** One step of the program is one step of the atomic queue, or none. */
  lemma RefinesFifo(s: State, t: Thread)
    requires Inv(s) && Enabled(s, t)
    ensures Inv(Next(s, t)) && |Next(s, t).consumers| == |s.consumers|
    ensures FifoEffect(s, t, Next(s, t))
  {
    if WritesASlot(s, t) {
      WriteRefines(s);
    } else if ReadsASlot(s, t) {
      ReadRefines(s, t.c);
    } else {
      OtherStepsStutter(s, t);
    }
  }

  ghost predicate RefinedStep(s: State, s': State) {
    && Inv(s) && Inv(s') && |s'.consumers| == |s.consumers|
    && exists t :: Enabled(s, t) && s' == Next(s, t) && FifoEffect(s, t, s')
  }

  lemma StepIsRefined(s: State, s': State)
    requires Inv(s) && Step(s, s')
    ensures RefinedStep(s, s')
  {
    var t :| Enabled(s, t) && s' == Next(s, t);
    RefinesFifo(s, t);
  }

  /** Every run of the program is, step by step, a run of an atomic queue of capacity eight
      that starts empty; the k-th value handed out is k, so none is lost, repeated or reordered. */
  lemma EveryRunIsAFifoRun(n: nat, m: nat, states: seq<State>)
    requires Run(Initial(n, m), Step, states)
    ensures Inv(states[0]) && Abstract(states[0]) == Fifo([], [])
    ensures forall k :: 0 <= k < |states| - 1 ==> RefinedStep(states[k], states[k + 1])
    ensures forall k :: 0 <= k < |states| ==>
              states[k].taken == seq(|states[k].taken|, j => j + 1) && |states[k].taken| <= n
  {
    forall k | 0 <= k < |states|
      ensures Inv(states[k]) && states[k].taken == seq(|states[k].taken|, j => j + 1) && |states[k].taken| <= n
    {
      RunKeepsInv(n, m, states, k);
      WindowFits(states[k]);
    }
    WindowContents(states[0]);
    forall k | 0 <= k < |states| - 1 ensures RefinedStep(states[k], states[k + 1]) {
      StepIsRefined(states[k], states[k + 1]);
    }
  }

  // ---------------------------------------------------------------- tokens, slots, races

  lemma {:induction false} BetweenIsClaimsPlusDrains(cs: seq<Consumer>)
    ensures Total(cs, Between) == Total(cs, Claims) + Total(cs, Drains)
  {
    if cs != [] {
      BetweenIsClaimsPlusDrains(cs[1..]);
    }
  }

  /** Tokens are conserved: each is in a semaphore or with a thread between its wait and post. */
  lemma TokensConserved(s: State)
    requires Inv(s)
    ensures s.available + s.space + ProducerBetween(s) + Total(s.consumers, Between) == BUFFER_SIZE
  {
    BetweenIsClaimsPlusDrains(s.consumers);
  }

  /** Whenever no index update is half done, both indices are exact and the window of slots
      that starts at `head` holds the next values in order. */
  lemma IndicesAtBoundary(s: State)
    requires Inv(s) && s.producer != AdvanceTail && HolderPc(s) != AdvanceHead
    ensures s.tail == Written(s) % BUFFER_SIZE && s.head == |s.taken| % BUFFER_SIZE
    ensures forall k: nat {:trigger SlotAfter(s.buffer, s.head, k)} :: |s.taken| + k < Written(s) ==>
              SlotAfter(s.buffer, s.head, k) == |s.taken| + 1 + k
  {
    FrontSlotExact(s);
    forall k: nat {:trigger SlotAfter(s.buffer, s.head, k)} | |s.taken| + k < Written(s)
      ensures SlotAfter(s.buffer, s.head, k) == |s.taken| + 1 + k
    {
      SlotHolds(s, k);
    }
  }

  /** The producer writes without the mutex, yet never a slot that still holds an unread value. */
  lemma WritesOnlyFreeSlots(s: State, k: nat)
    requires Inv(s) && s.producer == WriteSlot && k < Unread(s)
    ensures s.tail != UnreadSlot(s, k)
  {
    WindowFits(s);
    FrontSlotExact(s);
    UnreadExact(s);
    SlotArithmetic(|s.taken|, k);
    SlotsDiffer(|s.taken| + k, s.i - 1);
  }

  /** The slot the producer writes is never the one a consumer is reading, and no two
      consumers read at once. */
  lemma NoSlotRace(s: State, c: nat, d: nat)
    requires Inv(s) && c < |s.consumers| && d < |s.consumers|
    requires s.consumers[c].pc == ReadSlot
    ensures s.producer == WriteSlot ==> s.tail != s.head
    ensures s.consumers[d].pc == ReadSlot ==> c == d
  {
    WindowFits(s);
    assert HolderPc(s) == ReadSlot;
    if s.producer == WriteSlot {
      SlotsDiffer(|s.taken|, s.i - 1);
    }
  }

  // ---------------------------------------------------------------- what a step may do, and when

  /** Who changes a global, and at which point of its work: the shared counters and the read index
      only a consumer that owns the mutex; an item is posted when it is in its slot and the index
      points behind it; space is posted by a consumer that has read and owns the mutex no more. */
  ghost predicate EffectsInOrder(s: State, t: Thread, s': State) {
    && (s'.buffer != s.buffer || s'.tail != s.tail || s'.available > s.available || s'.space < s.space ==>
          t == Producer)
    && (s'.available > s.available ==>
          && s'.available == s.available + 1 && s.i >= 1 && s.tail == s.i % 8
          && |s.buffer| == 8 && s.buffer[(s.i - 1) % 8] == s.i && s'.i == s.i + 1)
    && (s'.tail != s.tail ==> s.tail < |s.buffer| && s.buffer[s.tail] == s.i)
    && (s'.taken != s.taken || s'.head != s.head || s'.totalSum != s.totalSum || s'.processed != s.processed ==>
          t.ConsumerAt? && s.owner == s'.owner == Some(t.c))
    && (s'.space > s.space || s'.available < s.available ==>
          && t.ConsumerAt? && s.owner != Some(t.c) && s'.owner == s.owner
          && s'.space <= s.space + 1 && s'.available >= s.available - 1)
  }

  lemma StepsHaveOrderedEffects(s: State, t: Thread)
    requires Inv(s) && Enabled(s, t)
    ensures EffectsInOrder(s, t, Next(s, t))
  {
    match t
    case Producer => ProducerEffectsInOrder(s);
    case ConsumerAt(c) => ConsumerEffectsInOrder(s, c);
    case Main =>
  }

  lemma ProducerEffectsInOrder(s: State)
    requires Inv(s) && ProducerEnabled(s)
    ensures EffectsInOrder(s, Producer, ProducerNext(s))
  {
    WindowFits(s);
    if s.producer in {AdvanceTail, PostItem} {
      var k: nat := s.i - 1;
      assert |s.taken| <= k < Written(s);
      assert s.buffer[k % BUFFER_SIZE] == k + 1;
    }
  }

  lemma ConsumerEffectsInOrder(s: State, c: nat)
    requires Inv(s) && ConsumerEnabled(s, c)
    ensures EffectsInOrder(s, ConsumerAt(c), ConsumerNext(s, c))
  {
    if InCriticalSection(s.consumers[c]) {
      assert s.owner == Some(c);
    }
  }

  lemma EveryStepHasOrderedEffects(n: nat, m: nat, states: seq<State>, k: nat)
    requires Run(Initial(n, m), Step, states) && k + 1 < |states|
    ensures exists t :: Enabled(states[k], t) && states[k + 1] == Next(states[k], t)
                        && EffectsInOrder(states[k], t, states[k + 1])
  {
    RunKeepsInv(n, m, states, k);
    assert Step(states[k], states[k + 1]);
    var t :| Enabled(states[k], t) && states[k + 1] == Next(states[k], t);
    StepsHaveOrderedEffects(states[k], t);
  }

  // ---------------------------------------------------------------- who waits, and for what

  /** The producer waits exactly while eight slots hold values that are unread or whose readers
      have not given the space back; a consumer waits for an item exactly while none is posted
      that nobody has claimed, and for the mutex exactly while somebody is inside. Nobody waits
      anywhere else. */
  ghost predicate ProducerWaitsExactly(s: State) {
    match s.producer
    case AwaitSpace => ProducerEnabled(s) <==> Unread(s) + Total(s.consumers, Drains) < 8
    case Finished => !ProducerEnabled(s) && s.i == s.n + 1
    case _ => ProducerEnabled(s)
  }

  ghost predicate ConsumerWaitsExactly(s: State, c: nat)
    requires c < |s.consumers|
  {
    match s.consumers[c].pc
    case AwaitItem => ConsumerEnabled(s, c) <==> |s.taken| + Total(s.consumers, Claims) < s.i - 1
    case Lock => ConsumerEnabled(s, c) <==> forall d :: 0 <= d < |s.consumers| ==> !InCriticalSection(s.consumers[d])
    case _ => ConsumerEnabled(s, c)
  }

  ghost predicate MainWaitsExactly(s: State) {
    match s.main
    case JoinProducer => MainEnabled(s) <==> s.i == s.n + 1
    case Spin => MainEnabled(s) <==> s.processed == s.n
    case Report => MainEnabled(s)
    case Exited => !MainEnabled(s)
  }

  lemma ConsumersWaitExactly(s: State, c: nat)
    requires Inv(s) && c < |s.consumers|
    ensures ConsumerWaitsExactly(s, c)
  {
    if s.consumers[c].pc == Lock && s.owner.Some? {
      assert InCriticalSection(s.consumers[s.owner.value]);
    } else if s.consumers[c].pc == ReadSlot {
      assert s.head < BUFFER_SIZE;
    }
  }

  lemma OthersWaitExactly(s: State)
    requires Inv(s)
    ensures ProducerWaitsExactly(s) && MainWaitsExactly(s)
  {
    WindowFits(s);
    SumIsExact(s);
  }

  /** At every point of every run whose main has not returned, exactly these threads can move. */
  lemma EveryStateWaitsExactly(n: nat, m: nat, states: seq<State>, k: nat)
    requires Run(Initial(n, m), Step, states) && k < |states| && states[k].main != Exited
    ensures var s := states[k];
            && (Enabled(s, Producer) <==> ProducerEnabled(s)) && ProducerWaitsExactly(s)
            && (Enabled(s, Main) <==> MainEnabled(s)) && MainWaitsExactly(s)
            && forall c: nat :: if c < |s.consumers|
                 then (Enabled(s, ConsumerAt(c)) <==> ConsumerEnabled(s, c)) && ConsumerWaitsExactly(s, c)
                 else !Enabled(s, ConsumerAt(c))
  {
    RunKeepsInv(n, m, states, k);
    OthersWaitExactly(states[k]);
    forall c: nat | c < |states[k].consumers| ensures ConsumerWaitsExactly(states[k], c) {
      ConsumersWaitExactly(states[k], c);
    }
  }

  /** The state after the first j items when no consumer has moved. */
  function Stocked(n: nat, m: nat, j: nat): State {
    Initial(n, m).(
      buffer := seq(BUFFER_SIZE, k => if k < j then k + 1 else 0), tail := j % BUFFER_SIZE, i := j + 1,
      available := j, space := if j <= BUFFER_SIZE then BUFFER_SIZE - j else 0,
      producer := if j < n then AwaitSpace else Finished)
  }

  lemma FourTurns(n: nat, m: nat, j: nat)
    requires j < n && j < BUFFER_SIZE
    ensures Turn(Turn(Turn(Turn(Stocked(n, m, j), Producer), Producer), Producer), Producer)
            == Stocked(n, m, j + 1)
  {
    var s := Turn(Turn(Stocked(n, m, j), Producer), Producer);
    assert s.buffer == Stocked(n, m, j + 1).buffer;
  }

  lemma StocksOneMore(n: nat, m: nat, j: nat, schedule: seq<Thread>)
    requires j < n && j < BUFFER_SIZE && After(Initial(n, m), Turn, schedule) == Stocked(n, m, j)
    ensures After(Initial(n, m), Turn, schedule + [Producer] + [Producer] + [Producer] + [Producer])
            == Stocked(n, m, j + 1)
  {
    FourMoreTurns(Initial(n, m), Turn, schedule, Producer);
    FourTurns(n, m, j);
  }

  lemma NothingStocked(n: nat, m: nat)
    ensures Stocked(n, m, 0) == Initial(n, m)
  {
    assert Stocked(n, m, 0).buffer == Initial(n, m).buffer;
  }

  lemma {:induction false} StocksUp(n: nat, m: nat, j: nat) returns (schedule: seq<Thread>)
    requires j <= n && j <= BUFFER_SIZE
    ensures |schedule| == 4 * j && forall k :: 0 <= k < |schedule| ==> schedule[k] == Producer
    ensures After(Initial(n, m), Turn, schedule) == Stocked(n, m, j)
  {
    if j == 0 {
      NothingStocked(n, m);
      schedule := [];
    } else {
      schedule := StocksUp(n, m, j - 1);
      StocksOneMore(n, m, j - 1, schedule);
      schedule := schedule + [Producer] + [Producer] + [Producer] + [Producer];
    }
  }

  /** With at least eight items to produce the queue really fills up: 32 turns of the producer
      lead to a state with eight unread values, 1 to 8 in their slots, and then it waits. */
  lemma EightItemsWaiting(n: nat, m: nat) returns (states: seq<State>)
    requires n >= 8
    ensures Run(Initial(n, m), Step, states)
    ensures var last := states[|states| - 1];
            && last == After(Initial(n, m), Turn, seq(32, _ => Producer)) && |last.buffer| == BUFFER_SIZE
            && Abstract(last) == Fifo([1, 2, 3, 4, 5, 6, 7, 8], [])
            && last.i == 9 && last.available == 8 && last.space == 0 && !Enabled(last, Producer)
  {
    TurnsAreSteps();
    var schedule := StocksUp(n, m, 8);
    assert schedule == seq(32, _ => Producer);
    states := AfterIsReached(Initial(n, m), Step, Turn, schedule);
    RunKeepsInv(n, m, states, |states| - 1);
    EightIsFull(n, m);
  }

  lemma TurnsAreSteps()
    ensures forall s, t :: Turn(s, t) == s || Step(s, Turn(s, t))
  {
    forall s, t ensures Turn(s, t) == s || Step(s, Turn(s, t)) {
      if Enabled(s, t) {
        assert Step(s, Next(s, t));
      }
    }
  }

  lemma EightIsFull(n: nat, m: nat)
    requires n >= 8 && Inv(Stocked(n, m, 8))
    ensures Abstract(Stocked(n, m, 8)) == Fifo([1, 2, 3, 4, 5, 6, 7, 8], [])
    ensures !Enabled(Stocked(n, m, 8), Producer)
  {
    WindowContents(Stocked(n, m, 8));
    assert Counting(0, 8) == [1, 2, 3, 4, 5, 6, 7, 8];
  }

  // ---------------------------------------------------------------- progress

  predicate WorkerEnabled(s: State) {
    ProducerEnabled(s) || exists c :: 0 <= c < |s.consumers| && ConsumerEnabled(s, c)
  }

  /** When no worker can move, all work is done: every consumer is parked on availableItems. */
  lemma ParkedWhenNoWorkerMoves(s: State)
    requires Inv(s) && |s.consumers| >= 1 && !WorkerEnabled(s)
    ensures forall c :: 0 <= c < |s.consumers| ==> s.consumers[c].pc == AwaitItem
    ensures s.producer == Finished && s.available == 0 && s.space == BUFFER_SIZE && s.head == s.tail
    ensures s.processed == s.n && s.totalSum == SquaresTo(s.n) && s.owner == None
  {
    WindowFits(s);
    forall c | 0 <= c < |s.consumers| ensures !ConsumerEnabled(s, c) {}
    assert s.owner == None by {
      if s.owner.Some? && ConsumerEnabled(s, s.owner.value) {}
    }
    forall c | 0 <= c < |s.consumers| ensures s.consumers[c].pc == AwaitItem {
      assert !ConsumerEnabled(s, c);
    }
    assert !ConsumerEnabled(s, 0);
    TotalOfEqualWeights(s.consumers, Claims, 0);
    TotalOfEqualWeights(s.consumers, Drains, 0);
  }

  /** Until main returns, some thread can always take a step. */
  lemma NeverStuck(s: State)
    requires Inv(s) && |s.consumers| >= 1 && s.main != Exited
    ensures exists t :: Enabled(s, t)
  {
    if ProducerEnabled(s) {
      assert Enabled(s, Producer);
    } else if c :| 0 <= c < |s.consumers| && ConsumerEnabled(s, c) {
      assert Enabled(s, ConsumerAt(c));
    } else {
      ParkedWhenNoWorkerMoves(s);
      assert Enabled(s, Main);
    }
  }

  function ProducerStepsLeft(s: State): int {
    4 * (s.n + 1 - s.i) - match s.producer
                          case WriteSlot => 1
                          case AdvanceTail => 2
                          case PostItem => 3
                          case _ => 0
  }

  function ConsumerStepsLeft(c: Consumer): nat {
    match c.pc
    case AwaitItem => 0
    case Lock => 7
    case ReadSlot => 6
    case AdvanceHead => 5
    case AddSquare => 4
    case CountItem => 3
    case Unlock => 2
    case PostSpace => 1
  }

  function MainStepsLeft(s: State): nat {
    match s.main case JoinProducer => 3 case Spin => 2 case Report => 1 case Exited => 0
  }

  /** Steps the whole system still has to take: four per item to produce, eight per item whose
      token nobody has taken, the rest of each consumer's round, and main's. */
  function StepsLeft(s: State): int {
    ProducerStepsLeft(s) + 8 * (s.n + 1 - s.i + s.available)
    + Total(s.consumers, ConsumerStepsLeft) + MainStepsLeft(s)
  }

  lemma ConsumerSpendsOne(s: State, c: nat)
    requires ConsumerEnabled(s, c)
    ensures var s' := ConsumerNext(s, c);
            8 * s'.available + ConsumerStepsLeft(s'.consumers[c])
            == 8 * s.available + ConsumerStepsLeft(s.consumers[c]) - 1
  {}

  lemma ConsumerStepCostsOne(s: State, c: nat)
    requires ConsumerEnabled(s, c)
    ensures StepsLeft(ConsumerNext(s, c)) == StepsLeft(s) - 1
  {
    var s' := ConsumerNext(s, c);
    ConsumerMoves(s, c);
    ConsumerSpendsOne(s, c);
    TotalAfterUpdate(s.consumers, c, s'.consumers[c], ConsumerStepsLeft);
  }

  lemma StepCostsOne(s: State, t: Thread)
    requires Enabled(s, t)
    ensures StepsLeft(Next(s, t)) == StepsLeft(s) - 1
  {
    if t.ConsumerAt? {
      ConsumerStepCostsOne(s, t.c);
    }
  }

  lemma RunIsBounded(n: nat, m: nat, states: seq<State>)
    requires Run(Initial(n, m), Step, states)
    ensures |states| - 1 + StepsLeft(states[|states| - 1]) <= 12 * n + 3
  {
    var s0 := Initial(n, m);
    InitialInv(n, m);
    forall s, s' | InvFor(n, m, s) && Step(s, s')
      ensures InvFor(n, m, s') && StepsLeft(s') < StepsLeft(s)
    {
      StepKeepsInv(s, s');
      var t :| Enabled(s, t) && s' == Next(s, t);
      StepCostsOne(s, t);
    }
    TotalOfEqualWeights(s0.consumers, ConsumerStepsLeft, 0);
    MeasureBoundsRun(s0, Step, (s: State) => InvFor(n, m, s), StepsLeft, states, |states| - 1);
  }

  lemma StepsLeftNonnegative(s: State)
    requires Inv(s)
    ensures StepsLeft(s) >= 0
  {}

  /** A run has at most 12n + 3 steps, and a run nobody can extend ends with main having
      printed the closed-form sum: no schedule deadlocks, diverges or changes the answer. */
  lemma EveryRunEndsWithTheSum(n: nat, m: nat, states: seq<State>)
    requires m >= 1 && Run(Initial(n, m), Step, states)
    ensures |states| - 1 <= 12 * n + 3
    ensures var last := states[|states| - 1];
            (forall t :: !Enabled(last, t)) ==>
              last.main == Exited && last.reported == n * (n + 1) * (2 * n + 1) / 6
  {
    RunKeepsInv(n, m, states, |states| - 1);
    var last := states[|states| - 1];
    RunIsBounded(n, m, states);
    StepsLeftNonnegative(last);
    if forall t :: !Enabled(last, t) {
      if last.main != Exited {
        NeverStuck(last);
      }
      SquaresClosedForm(n);
    }
  }

  /** The sum of squares is exact whenever the mutex is free, no item is counted twice, and
      main's unlocked loop lets it past only when the sum is complete. */
  lemma SumIsExact(s: State)
    requires Inv(s)
    ensures s.owner == None ==> s.processed >= 0 && s.totalSum == SquaresTo(s.processed)
    ensures s.processed <= s.n
    ensures s.processed >= s.n ==> s.totalSum == SquaresTo(s.n)
  {
    WindowFits(s);
  }

  /** With the largest n the program accepts, every value stored fits a 32-bit int. */
  lemma NoOverflow(s: State)
    requires Inv(s) && s.n <= 1000
    ensures 0 <= s.totalSum < 0x8000_0000 && 0 <= s.processed <= 1000
    ensures HolderPc(s) == AddSquare ==>
              var val := s.consumers[s.owner.value].val;
              0 <= val <= 1000 && 0 <= s.totalSum + val * val < 0x8000_0000
  {
    WindowFits(s);
    SquaresFitInt(s.n);
    SquaresMonotone(|s.taken|, s.n);
    if |s.taken| > 0 {
      SquaresMonotone(|s.taken| - 1, s.n);
    }
  }

  // ---------------------------------------------------------------- every state of every run

  ghost predicate NobodyRaces(s: State) {
    forall c, d :: 0 <= c < |s.consumers| && 0 <= d < |s.consumers| && s.consumers[c].pc == ReadSlot ==>
      (s.producer == WriteSlot ==> s.tail != s.head) && (s.consumers[d].pc == ReadSlot ==> c == d)
  }

  ghost predicate OnlyFreeSlotsWritten(s: State) {
    s.producer == WriteSlot ==> forall k: nat :: k < Unread(s) ==> s.tail != UnreadSlot(s, k)
  }

  ghost predicate IndicesExact(s: State) {
    |s.buffer| == BUFFER_SIZE && |s.taken| <= Written(s)
    && (s.producer != AdvanceTail && HolderPc(s) != AdvanceHead ==>
          && s.tail == Written(s) % BUFFER_SIZE && s.head == |s.taken| % BUFFER_SIZE
          && forall k: nat {:trigger SlotAfter(s.buffer, s.head, k)} :: |s.taken| + k < Written(s) ==>
               SlotAfter(s.buffer, s.head, k) == |s.taken| + 1 + k)
  }

  ghost predicate ParkedIfIdle(s: State) {
    |s.consumers| >= 1 && !WorkerEnabled(s) ==>
      && (forall c :: 0 <= c < |s.consumers| ==> s.consumers[c].pc == AwaitItem)
      && s.available == 0 && s.space == BUFFER_SIZE && s.head == s.tail
      && s.processed == s.n && s.totalSum == SquaresTo(s.n)
  }

  ghost predicate CountersExact(s: State) {
    && (s.owner == None ==> s.processed >= 0 && s.totalSum == SquaresTo(s.processed))
    && s.processed <= s.n
    && (s.processed == s.n ==> s.totalSum == SquaresTo(s.n))
  }

  ghost predicate FitsInt(s: State) {
    && 0 <= s.totalSum < 0x8000_0000 && 0 <= s.processed <= 1000
    && (s.owner.Some? && s.owner.value < |s.consumers| && HolderPc(s) == AddSquare ==>
          var val := s.consumers[s.owner.value].val;
          0 <= val <= 1000 && 0 <= s.totalSum + val * val < 0x8000_0000)
  }

  lemma NobodyRacesAtAll(s: State)
    requires Inv(s)
    ensures NobodyRaces(s)
  {
    forall c: nat, d: nat | c < |s.consumers| && d < |s.consumers| && s.consumers[c].pc == ReadSlot
      ensures s.producer == WriteSlot ==> s.tail != s.head
      ensures s.consumers[d].pc == ReadSlot ==> c == d
    {
      NoSlotRace(s, c, d);
    }
  }

  lemma UnreadSlotsAreKept(s: State)
    requires Inv(s)
    ensures OnlyFreeSlotsWritten(s)
  {
    if s.producer == WriteSlot {
      forall k: nat | k < Unread(s) ensures s.tail != UnreadSlot(s, k) {
        WritesOnlyFreeSlots(s, k);
      }
    }
  }

  lemma InvIsSafe(s: State)
    requires Inv(s)
    ensures NobodyRaces(s) && OnlyFreeSlotsWritten(s) && IndicesExact(s)
    ensures ParkedIfIdle(s) && CountersExact(s) && (s.n <= 1000 ==> FitsInt(s))
  {
    NobodyRacesAtAll(s);
    UnreadSlotsAreKept(s);
    UnreadExact(s);
    if s.producer != AdvanceTail && HolderPc(s) != AdvanceHead {
      IndicesAtBoundary(s);
    }
    if |s.consumers| >= 1 && !WorkerEnabled(s) {
      ParkedWhenNoWorkerMoves(s);
    }
    SumIsExact(s);
    if s.n <= 1000 {
      NoOverflow(s);
    }
  }

  /** What holds at every point of every run: tokens are conserved, no slot is raced for or
      overwritten unread, the indices and the window are exact between index updates, idle
      workers are parked with everything summed, the counters main reads without the lock never
      mislead it, and for the accepted n nothing overflows. */
  lemma EveryStateIsSafe(n: nat, m: nat, states: seq<State>, k: nat)
    requires Run(Initial(n, m), Step, states) && k < |states|
    ensures var s := states[k];
            && s.n == n && |s.consumers| == m
            && s.available + s.space + ProducerBetween(s) + Total(s.consumers, Between) == BUFFER_SIZE
            && NobodyRaces(s) && OnlyFreeSlotsWritten(s) && IndicesExact(s)
            && ParkedIfIdle(s) && CountersExact(s) && (n <= 1000 ==> FitsInt(s))
  {
    RunKeepsInv(n, m, states, k);
    TokensConserved(states[k]);
    InvIsSafe(states[k]);
  }
}
