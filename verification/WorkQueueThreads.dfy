/** Lecture9/cond_variable/main.c with its globals as mutable fields and its queue as the
    linked list on the heap: each method executes the next statement of one thread in place. */
module WorkQueueThreads {
  import opened Options
  import opened MessageQueue
  import opened Transitions
  import opened WorkQueue

  /** The message belongs to a producer that has appended it. */
  ghost predicate Published(messages: seq<Message?>, producers: seq<ProducerPc>, m: Message) {
    && m.maker < |messages| == |producers|
    && messages[m.maker] == m && HasAppended(producers[m.maker])
  }

  /** A message is in the list, in the consumer's hands or freed once it is appended, and in one
      of the three places only: nothing leaks, and nothing freed is used or freed again. */
  ghost predicate Accounted(
      messages: seq<Message?>, producers: seq<ProducerPc>, spine: seq<Message>, hand: Message?, freed: set<Message>)
  {
    && |messages| == |producers|
    && (forall j :: 0 <= j < |messages| && HasAppended(producers[j]) ==>
          messages[j] != null && (messages[j] in spine || messages[j] in freed || messages[j] == hand))
    && (forall i :: 0 <= i < |spine| ==> Published(messages, producers, spine[i]) && spine[i] !in freed)
    && (forall m :: m in freed ==> Published(messages, producers, m))
    && (hand != null ==> Published(messages, producers, hand) && hand !in spine && hand !in freed)
  }

  /** Processing frees the message in the consumer's hands, which was not free before. */
  lemma FreeAccounted(
      messages: seq<Message?>, producers: seq<ProducerPc>, spine: seq<Message>, hand: Message, freed: set<Message>)
    requires Accounted(messages, producers, spine, hand, freed)
    ensures hand !in spine && hand !in freed
    ensures Accounted(messages, producers, spine, null, freed + {hand})
  {}

  /** Once all producers are done and the list and the consumer's hands are empty, exactly the
      producers' messages have been freed. */
  lemma AllFreed(messages: seq<Message?>, producers: seq<ProducerPc>, freed: set<Message>)
    requires Accounted(messages, producers, [], null, freed)
    requires forall j :: 0 <= j < |producers| ==> producers[j] == Done
    ensures freed == set m | m in messages
  {
    forall m | m in messages ensures m in freed {
      var j :| 0 <= j < |messages| && messages[j] == m;
      assert HasAppended(producers[j]);
    }
  }

  /** A producer that moves on without appending changes nothing of it. */
  lemma StillAccounted(
      messages: seq<Message?>, producers: seq<ProducerPc>, j: nat, pc: ProducerPc,
      spine: seq<Message>, hand: Message?, freed: set<Message>)
    requires Accounted(messages, producers, spine, hand, freed)
    requires j < |producers| && HasAppended(pc) == HasAppended(producers[j])
    ensures Accounted(messages, producers[j := pc], spine, hand, freed)
  {}

  lemma AllocationAccounted(
      messages: seq<Message?>, producers: seq<ProducerPc>, j: nat, m: Message,
      spine: seq<Message>, hand: Message?, freed: set<Message>)
    requires Accounted(messages, producers, spine, hand, freed)
    requires j < |messages| && messages[j] == null && producers[j] == Allocate
    ensures Accounted(messages[j := m], producers[j := Lock], spine, hand, freed)
  {}

  /** The message a producer appends is not in the list yet, and is in the list then. */
  lemma AppendAccounted(
      messages: seq<Message?>, producers: seq<ProducerPc>, j: nat,
      spine: seq<Message>, hand: Message?, freed: set<Message>)
    requires Accounted(messages, producers, spine, hand, freed)
    requires j < |messages| && messages[j] != null && messages[j].maker == j && producers[j] == Append
    ensures messages[j] !in spine && messages[j] !in freed && messages[j] != hand
    ensures Accounted(messages, producers[j := Signal], spine + [messages[j]], hand, freed)
  {}

  /** Popping moves the first message of the list into the consumer's hands. */
  lemma PopAccounted(messages: seq<Message?>, producers: seq<ProducerPc>, spine: seq<Message>, freed: set<Message>)
    requires Accounted(messages, producers, spine, null, freed) && spine != []
    requires spine[0] !in spine[1..]
    ensures Accounted(messages, producers, spine[1..], spine[0], freed)
  {
    assert spine == [spine[0]] + spine[1..];
    forall i | 0 <= i < |spine[1..]|
      ensures Published(messages, producers, spine[1..][i]) && spine[1..][i] !in freed
    {
      assert spine[1..][i] == spine[i + 1];
    }
  }

  class Threads {
    const list: MessageList
    var running: bool
    var qlock: Option<Thread>

    const data: seq<int>
    var producers: seq<ProducerPc>
    var consumer: ConsumerPc
    var mp: Message?
    var stopper: StopperPc
    var main: MainPc

    /** Each producer's message, null until the producer has allocated it. */
    var messages: seq<Message?>

    /** What the consumer has freed. */
    ghost var freed: set<Message>

    ghost var order: seq<nat>
    ghost var processed: seq<int>
    ghost var spurious: nat

    predicate HasMessage()
      reads `consumer
    {
      consumer in {Release, Process}
    }

    ghost function View(): State
      reads this, list, list.spine, mp
    {
      State(data, running, list.Contents(), qlock, producers, consumer,
            if HasMessage() && mp != null then mp.data else 0, stopper, main, order, processed, spurious)
    }

    /** The message between its pop and its free. */
    ghost function InHands(): Message?
      reads `consumer, `mp
    {
      if HasMessage() then mp else null
    }

    /** Every producer that has allocated a message has its own, whole until it is appended. */
    ghost predicate MessagesValid()
      reads `producers, `messages, messages
    {
      && |messages| == |data| == |producers|
      && (forall j :: 0 <= j < |messages| ==>
            && (messages[j] == null <==> producers[j] == Allocate)
            && (messages[j] != null ==> messages[j].maker == j))
      && (forall j :: 0 <= j < |messages| && producers[j] in {Lock, Append} ==>
            messages[j].next == null && messages[j].data == data[j])
    }

    ghost predicate Valid()
      reads `producers, `messages, `consumer, `mp, `freed, list, list.spine, messages
    {
      && list.Valid() && MessagesValid()
      && Accounted(messages, producers, list.spine, InHands(), freed)
      && (HasMessage() ==> mp != null)
    }

    constructor (data: seq<int>)
      ensures fresh(list) && forall m :: m in messages ==> m == null
      ensures Valid() && View() == Initial(data)
    {
      list := new MessageList();
      running := true;
      qlock := None;
      this.data := data;
      producers := seq(|data|, _ => Allocate);
      messages := seq(|data|, _ => null);
      consumer, mp := Acquire, null;
      stopper, main := NotCreated, JoinProducers;
      freed := {};
      order, processed, spurious := [], [], 0;
    }

    /** Lines 53-54: malloc and fill a message, without the lock. */
    method AllocateMessage(j: nat)
      requires Enabled(View(), Producer(j)) && producers[j] == Allocate && j < |messages|
      requires j < |data|
      modifies `messages, `producers
      ensures View() == Next(old(View()), Producer(j))
      ensures |messages| == |old(messages)| && messages == old(messages)[j := messages[j]]
      ensures producers == old(producers)[j := Lock]
      ensures messages[j] != null && fresh(messages[j])
      ensures messages[j].maker == j && messages[j].data == data[j] && messages[j].next == null
    {
      var newMessage := new Message(data[j], j);
      messages := messages[j := newMessage];
      producers := producers[j := Lock];
    }

    /** Lines 56-67: the new message goes to the end of the list. */
    method AppendMessage(j: nat)
      requires list.Valid() && MessagesValid() && Enabled(View(), Producer(j)) && producers[j] == Append
      requires forall k :: 0 <= k < |messages| && producers[k] in {Lock, Append} ==> messages[k] !in list.spine
      modifies `order, `producers, list, list.spine
      ensures list.Valid() && MessagesValid() && View() == Next(old(View()), Producer(j))
      ensures list.spine == old(list.spine) + [messages[j]] && producers == old(producers)[j := Signal]
    {
      list.Append(messages[j]);
      order := order + [j];
      producers := producers[j := Signal];
    }

    /** Lines 56, 69 and 70: lock, signal while holding the lock, unlock. */
    method LockSignalUnlock(j: nat)
      requires Enabled(View(), Producer(j)) && producers[j] in {Lock, Signal, Unlock}
      modifies `qlock, `consumer, `producers
      ensures View() == Next(old(View()), Producer(j)) && HasMessage() == old(HasMessage())
      ensures producers == old(producers)[j := producers[j]]
      ensures if old(producers[j]) == Lock then producers[j] == Append else HasAppended(producers[j])
    {
      match producers[j] {
        case Lock =>
          qlock := Some(Producer(j));
          producers := producers[j := Append];
        case Signal =>
          consumer := Woken(consumer);
          producers := producers[j := Unlock];
        case Unlock =>
          qlock := None;
          producers := producers[j := Done];
      }
    }

    method AllocateStep(j: nat)
      requires Valid() && Enabled(View(), Producer(j)) && producers[j] == Allocate
      modifies `messages, `producers
      ensures Valid() && View() == Next(old(View()), Producer(j))
      ensures |messages| == |old(messages)| && messages == old(messages)[j := messages[j]]
      ensures fresh(messages[j])
    {
      AllocateMessage(j);
      AllocationAccounted(old(messages), old(producers), j, messages[j], list.spine, InHands(), freed);
    }

    lemma PendingIsUnlisted()
      requires Valid()
      ensures forall k :: 0 <= k < |messages| && producers[k] in {Lock, Append} ==> messages[k] !in list.spine
    {}

    method AppendStep(j: nat)
      requires Valid() && Enabled(View(), Producer(j)) && producers[j] == Append
      modifies `order, `producers, list, list.spine
      ensures Valid() && View() == Next(old(View()), Producer(j))
    {
      PendingIsUnlisted();
      AppendAccounted(messages, producers, j, list.spine, InHands(), freed);
      AppendMessage(j);
    }

    method LockSignalUnlockStep(j: nat)
      requires Valid() && Enabled(View(), Producer(j)) && producers[j] in {Lock, Signal, Unlock}
      modifies `qlock, `consumer, `producers
      ensures Valid() && View() == Next(old(View()), Producer(j))
    {
      LockSignalUnlock(j);
      StillAccounted(messages, old(producers), j, producers[j], list.spine, InHands(), freed);
    }

    method ProducerStep(j: nat)
      requires Valid() && Enabled(View(), Producer(j))
      modifies `qlock, `consumer, `producers, `messages, `order, list, list.spine
      ensures Valid() && View() == Next(old(View()), Producer(j))
      ensures forall m :: m in messages && m != null ==> m in old(messages) || fresh(m)
    {
      if producers[j] == Allocate {
        AllocateStep(j);
      } else if producers[j] == Append {
        AppendStep(j);
      } else {
        LockSignalUnlockStep(j);
      }
    }

    /** Lines 37-38: unlink the first message; the queue is known to hold one. */
    method UnlinkFirst()
      requires list.Valid() && consumer == Pop && Enabled(View(), Consumer)
      modifies `mp, `consumer, list
      ensures list.Valid() && View() == Next(old(View()), Consumer)
      ensures consumer == Release && mp == old(list.spine)[0] && mp !in list.spine
      ensures list.spine == old(list.spine)[1..]
    {
      mp := list.TakeFirst();
      consumer := Release;
    }

    method TakeMessage()
      requires Valid() && consumer == Pop && Enabled(View(), Consumer)
      modifies `mp, `consumer, list
      ensures Valid() && View() == Next(old(View()), Consumer)
    {
      UnlinkFirst();
      PopAccounted(messages, producers, old(list.spine), freed);
    }

    /** Lines 41-44: use and free the message. */
    method UseAndFree()
      requires consumer == Process && Enabled(View(), Consumer) && mp != null
      modifies `processed, `freed, `consumer
      ensures View() == Next(old(View()), Consumer) && !HasMessage() && freed == old(freed) + {mp}
    {
      processed := processed + [mp.data];
      freed := freed + {mp};
      consumer := Acquire;
    }

    /** The message is the consumer's alone, so it can be used and freed without the lock. */
    method ProcessMessage()
      requires Valid() && consumer == Process && Enabled(View(), Consumer)
      modifies `processed, `freed, `consumer
      ensures Valid() && View() == Next(old(View()), Consumer)
      ensures mp != null && mp !in old(freed) && mp !in list.spine && freed == old(freed) + {mp}
    {
      FreeAccounted(messages, producers, list.spine, mp, freed);
      UseAndFree();
    }

    method OtherConsumerStep()
      requires list.Valid() && Enabled(View(), Consumer) && consumer !in {Pop, Process}
      modifies `qlock, `consumer
      ensures View() == Next(old(View()), Consumer) && HasMessage() == old(HasMessage())
    {
      var lock, pc := qlock, consumer;
      match pc {
        case Acquire =>
          lock, pc := Some(Consumer), TestLoop;
        case TestLoop =>
          pc := if running && list.workq == null then Wait else TestExit;
        case Wait =>
          lock, pc := None, Blocked;
        case Reacquire =>
          lock, pc := Some(Consumer), TestLoop;
        case TestExit =>
          pc := if !running && list.workq == null then Quit else Pop;
        case Quit =>
          lock, pc := None, Exited;
        case Release =>
          lock, pc := None, Process;
      }
      qlock, consumer := lock, pc;
    }

    method ConsumerStep()
      requires Valid() && Enabled(View(), Consumer)
      modifies `mp, `processed, `freed, `qlock, `consumer, list
      ensures Valid() && View() == Next(old(View()), Consumer)
    {
      if consumer == Pop {
        TakeMessage();
      } else if consumer == Process {
        ProcessMessage();
      } else {
        OtherConsumerStep();
      }
    }

    /** Lines 74-79: the stopper signals after the unlock. */
    method StopperStep()
      requires Enabled(View(), Stopper)
      modifies `qlock, `running, `consumer, `stopper
      ensures View() == Next(old(View()), Stopper) && HasMessage() == old(HasMessage())
    {
      match stopper {
        case TakeLock =>
          qlock := Some(Stopper);
          stopper := ClearRunning;
        case ClearRunning =>
          running := false;
          stopper := DropLock;
        case DropLock =>
          qlock := None;
          stopper := SignalStop;
        case SignalStop =>
          consumer := Woken(consumer);
          stopper := Stopped;
      }
    }

    method MainStep()
      requires Enabled(View(), Main)
      modifies `stopper, `main
      ensures View() == Next(old(View()), Main)
    {
      match main {
        case JoinProducers =>
          stopper := TakeLock;
          main := JoinStopper;
        case JoinStopper =>
          main := JoinConsumer;
        case JoinConsumer =>
          main := Returned;
      }
    }

    method SpuriousWakeup()
      requires Enabled(View(), Spurious)
      modifies `consumer, `spurious
      ensures View() == Next(old(View()), Spurious) && HasMessage() == old(HasMessage())
    {
      consumer := Reacquire;
      spurious := spurious + 1;
    }

    /** A main that has returned leaves an empty list, every message processed once, in the order
        of the appends, and exactly the producers' messages freed. */
    lemma ReturnedIsDrained(data: seq<int>, states: seq<State>)
      requires Valid() && Run(Initial(data), Step, states) && states[|states| - 1] == View()
      requires main == Returned
      ensures list.workq == null && this.data == data && |order| == |messages| == |data|
      ensures OrderInv(View()) && processed == Messages(data, order)
      ensures freed == set m | m in messages
    {
      RunKeepsInv(data, states, |states| - 1);
      DrainedOnExit(View());
      assert list.Contents() == [];
      AllFreed(messages, producers, freed);
    }

    /** Whether a thread can take its next step now. */
    method CanStep(who: Thread) returns (can: bool)
      requires Valid()
      ensures can == Enabled(View(), who)
    {
      match who {
        case Producer(j) =>
          can := j < |producers| && j < |data| && producers[j] != Done
                 && (producers[j] == Lock ==> qlock == None);
        case Consumer =>
          can := consumer !in {Blocked, Exited}
                 && (consumer in {Acquire, Reacquire} ==> qlock == None)
                 && (consumer == Pop ==> list.workq != null);
        case Stopper =>
          can := stopper !in {NotCreated, Stopped} && (stopper == TakeLock ==> qlock == None);
        case Main =>
          match main {
            case JoinProducers => can := forall j :: 0 <= j < |producers| ==> producers[j] == Done;
            case JoinStopper => can := stopper == Stopped;
            case JoinConsumer => can := consumer == Exited;
            case Returned => can := false;
          }
        case Spurious =>
          can := consumer == Blocked;
      }
    }

    method StepOutsideTheList(who: Thread)
      requires Enabled(View(), who) && who in {Stopper, Main, Spurious}
      modifies `qlock, `running, `consumer, `stopper, `main, `spurious
      ensures View() == Next(old(View()), who) && HasMessage() == old(HasMessage())
    {
      match who {
        case Stopper => StopperStep();
        case Main => MainStep();
        case Spurious => SpuriousWakeup();
      }
    }

    /** These three never touch the list or a message. */
    method OtherThreadStep(who: Thread)
      requires Valid() && Enabled(View(), who) && who in {Stopper, Main, Spurious}
      modifies `qlock, `running, `consumer, `stopper, `main, `spurious
      ensures Valid() && View() == Next(old(View()), who)
    {
      StepOutsideTheList(who);
    }

    method ThreadStep(who: Thread)
      requires Valid() && Enabled(View(), who)
      modifies this, list, list.spine
      ensures Valid() && View() == Next(old(View()), who)
      ensures forall m :: m in messages && m != null ==> m in old(messages) || fresh(m)
    {
      match who {
        case Producer(j) => ProducerStep(j);
        case Consumer => ConsumerStep();
        case _ => OtherThreadStep(who);
      }
    }
  }

  /** The first k turns of the schedule lead, by the run `states`, to `now`. */
  ghost predicate Scheduled(data: seq<int>, schedule: seq<Thread>, k: nat, states: seq<State>, now: State) {
    && Run(Initial(data), Step, states) && states[|states| - 1] == now
    && k <= |schedule| && now == After(Initial(data), Turn, schedule[..k])
  }

  /** One turn of the scheduler: the thread takes its next step if it is not blocked. */
  method GiveTurn(t: Threads, schedule: seq<Thread>, k: nat, data: seq<int>, ghost states: seq<State>)
    returns (ghost longer: seq<State>)
    requires t.Valid() && k < |schedule| && Scheduled(data, schedule, k, states, t.View())
    modifies t, t.list, t.list.spine
    ensures t.Valid() && Scheduled(data, schedule, k + 1, longer, t.View())
    ensures forall m :: m in t.messages && m != null ==> m in old(t.messages) || fresh(m)
  {
    longer := states;
    NextTurn(Initial(data), Turn, schedule, k);
    var can := t.CanStep(schedule[k]);
    if can {
      t.ThreadStep(schedule[k]);
      assert Step(old(t.View()), t.View());
      RunExtends(Initial(data), Step, states, t.View());
      longer := states + [t.View()];
    }
  }

  method RunTurns(data: seq<int>, schedule: seq<Thread>) returns (t: Threads, ghost states: seq<State>)
    ensures t.Valid() && Scheduled(data, schedule, |schedule|, states, t.View())
  {
    t := new Threads(data);
    states := [t.View()];
    for k := 0 to |schedule|
      invariant fresh(t) && fresh(t.list) && t.Valid()
      invariant forall m :: m in t.messages && m != null ==> fresh(m)
      invariant Scheduled(data, schedule, k, states, t.View())
    {
      assert forall i :: 0 <= i < |t.list.spine| ==> t.list.spine[i] in t.messages;
      states := GiveTurn(t, schedule, k, data, states);
    }
  }

  /** A scheduler: give each thread of the schedule its turn, in which it takes its next step if it
      is not blocked and nothing happens otherwise. Whatever the schedule, a main that has returned
      leaves an empty list and every message processed once, in the order of the appends, and
      freed; and if only a spurious wakeup is left, main has returned. */
  method RunSchedule(data: seq<int>, schedule: seq<Thread>)
    returns (t: Threads, ghost states: seq<State>)
    ensures t.View() == After(Initial(data), Turn, schedule)
    ensures Run(Initial(data), Step, states) && t.Valid() && states[|states| - 1] == t.View()
    ensures t.main == Returned ==> |t.messages| == |data| && t.freed == set m | m in t.messages
    ensures t.main == Returned ==>
              && t.list.workq == null && OrderInv(t.View()) && |t.order| == |data| && t.data == data
              && t.processed == Messages(data, t.order)
    ensures (forall who :: Enabled(t.View(), who) ==> who == Spurious) ==> t.main == Returned
  {
    t, states := RunTurns(data, schedule);
    assert schedule[..|schedule|] == schedule;
    if t.main == Returned {
      t.ReturnedIsDrained(data, states);
    }
    EveryRunDrainsTheQueue(data, states);
  }
}
