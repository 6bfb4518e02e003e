/** Homework2/level3.c with its globals as mutable fields: each method executes the next
    statement of one thread in place. A caller that may pick any enabled thread at any time is
    the scheduler, so what is proved of `ProducerConsumer.Step` holds of every interleaving. */
module ProducerConsumerThreads {
  import opened Options
  import opened ProducerConsumer
  import opened Sums
  import opened Transitions

  class Threads {
    const n: nat
    const buffer: array<int>
    var head: nat
    var tail: nat
    var available: nat
    var space: nat
    var owner: Option<nat>
    var totalSum: int
    var processed: int

    var producer: ProducerPc
    var i: nat
    var consumers: seq<Consumer>
    var main: MainPc
    var reported: int

    /** The values read, in order, as the consumers print them. */
    var taken: seq<int>

    function View(): State
      reads this, buffer
    {
      State(n, buffer[..], head, tail, available, space, owner, totalSum, processed,
            producer, i, consumers, main, reported, taken)
    }

    constructor (n: nat, numThreads: nat)
      ensures fresh(buffer)
      ensures View() == Initial(n, numThreads)
    {
      this.n := n;
      buffer := new int[BUFFER_SIZE](_ => 0);
      head, tail := 0, 0;
      available, space := 0, BUFFER_SIZE;
      owner := None;
      totalSum, processed := 0, 0;
      producer, i := if n == 0 then Finished else AwaitSpace, 1;
      consumers := seq(numThreads, _ => Consumer(AwaitItem, 0));
      main, reported := JoinProducer, 0;
      taken := [];
      new;
      assert buffer[..] == Initial(n, numThreads).buffer;
    }

    method ProducerStep()
      requires Enabled(View(), Producer)
      modifies this, buffer
      ensures View() == Next(old(View()), Producer)
    {
      match producer {
        case AwaitSpace =>
          space := space - 1;
          producer := WriteSlot;
        case WriteSlot =>
          buffer[tail] := i;
          producer := AdvanceTail;
        case AdvanceTail =>
          tail := (tail + 1) % BUFFER_SIZE;
          producer := PostItem;
        case PostItem =>
          available := available + 1;
          i := i + 1;
          producer := if i <= n then AwaitSpace else Finished;
      }
    }

    method ConsumerStep(c: nat)
      requires Enabled(View(), ConsumerAt(c))
      modifies this
      ensures View() == Next(old(View()), ConsumerAt(c))
    {
      var me := consumers[c];
      match me.pc {
        case AwaitItem =>
          available := available - 1;
          me := me.(pc := Lock);
        case Lock =>
          owner := Some(c);
          me := me.(pc := ReadSlot);
        case ReadSlot =>
          taken := taken + [buffer[head]];
          me := Consumer(AdvanceHead, buffer[head]);
        case AdvanceHead =>
          head := (head + 1) % BUFFER_SIZE;
          me := me.(pc := AddSquare);
        case AddSquare =>
          totalSum := totalSum + me.val * me.val;
          me := me.(pc := CountItem);
        case CountItem =>
          processed := processed + 1;
          me := me.(pc := Unlock);
        case Unlock =>
          owner := None;
          me := me.(pc := PostSpace);
        case PostSpace =>
          space := space + 1;
          me := me.(pc := AwaitItem);
      }
      consumers := consumers[c := me];
    }

    method MainStep()
      requires Enabled(View(), Main)
      modifies this
      ensures View() == Next(old(View()), Main)
    {
      match main {
        case JoinProducer =>
          main := Spin;
        case Spin =>
          main := Report;
        case Report =>
          reported := totalSum;
          main := Exited;
      }
    }

    method ThreadStep(who: Thread)
      requires Enabled(View(), who)
      modifies this, buffer
      ensures View() == Next(old(View()), who)
    {
      match who {
        case Producer => ProducerStep();
        case ConsumerAt(c) => ConsumerStep(c);
        case Main => MainStep();
      }
    }
  }

  /** A scheduler: give each thread of the schedule its turn, in which it takes its next step if it
      is not blocked and nothing happens otherwise. Whatever the schedule, a main that has returned
      printed the sum, and if nobody can move it has returned. */
  method RunSchedule(n: nat, numThreads: nat, schedule: seq<Thread>)
    returns (t: Threads, ghost states: seq<State>)
    ensures t.View() == After(Initial(n, numThreads), Turn, schedule)
    ensures Run(Initial(n, numThreads), Step, states) && states[|states| - 1] == t.View()
    ensures t.main == Exited ==> t.reported == n * (n + 1) * (2 * n + 1) / 6
    ensures numThreads >= 1 && (forall who :: !Enabled(t.View(), who)) ==> t.main == Exited
  {
    t := new Threads(n, numThreads);
    states := [t.View()];
    for k := 0 to |schedule|
      invariant fresh(t) && fresh(t.buffer)
      invariant t.View() == After(Initial(n, numThreads), Turn, schedule[..k])
      invariant Run(Initial(n, numThreads), Step, states) && states[|states| - 1] == t.View()
    {
      NextTurn(Initial(n, numThreads), Turn, schedule, k);
      if Enabled(t.View(), schedule[k]) {
        ghost var before := t.View();
        t.ThreadStep(schedule[k]);
        assert Step(before, t.View());
        RunExtends(Initial(n, numThreads), Step, states, t.View());
        states := states + [t.View()];
      }
    }
    assert schedule[..|schedule|] == schedule;
    RunKeepsInv(n, numThreads, states, |states| - 1);
    SquaresClosedForm(n);
    if numThreads >= 1 {
      EveryRunEndsWithTheSum(n, numThreads, states);
    }
  }
}
