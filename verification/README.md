# Verified models of the ECE456 programs

Dafny 4.11 models of the programs of this course repository that have something hard to be right
about, and proofs of what they promise: four concurrent protocols, one interprocess log, a robust
I/O package, a file transfer, a request rewriter and two ways of splitting a sum.

`dafny verify dfyconfig.toml` checks everything.

## How the models are built

**Concurrent programs** (`ProducerConsumer`, `WorkQueue`, `ProxyLog`, `PipeSum`, `MutexSum`,
`RaceCounter`, `MutexCounter`). A `State` value holds the globals and one program counter per
thread; every semaphore operation, lock operation, read or update of a shared variable is one step.
`Enabled` says when a thread can take its next step (a blocked call is a step that is not
enabled), `Next` what the step does. A run (`Transitions.Run`) is any sequence of states linked by
steps, so a statement about every run is a statement about every interleaving, under sequential
consistency and with every system call succeeding. Beside each system stands a class with the same
globals as mutable fields; its methods execute one statement of one thread in place and are proved
to do to the fields exactly what `Next` says. `RunSchedule` drives the class by an arbitrary
schedule, which stands for the operating system's scheduler: each entry gives one thread a turn, in
which it takes its next step or, if it is blocked, none. The work queue's list lives on the heap.
For each system it is also proved who can move in every reachable state, in terms of the work done
rather than of the semaphores and locks (`EveryStateWaitsExactly`), and which globals a step may
change with which lock, so that the safety results are not results about threads that never run.

**Stream code** (`Kernel`, `Rio`, `FileTransfer`). The kernel is an adversary that follows an
arbitrary finite script of short reads or writes, `EINTR`s and hard errors. The methods have the
loops of the C code and are specified by positions in the byte stream. `Rio.ServeAll` and
`Rio.ReadLines` stand for callers: any sequence of requests, and the loop that reads all lines.

**Text** (`Scan`, `ProxyRequest`). The `sscanf` conversions, `strchr` and `strstr` are functions on
strings without NUL; a failed `sscanf` keeps what it stored before it failed. The outcome `Refused`
is an error message, `Tunnelled` the CONNECT branch, whose work is not modelled, and `Undefined`
says that the C code has no defined behaviour: input too long for an array, a port outside `int`, a
word of the request line that is used although it is missing, a request without a newline. The
method is judged first and the URL next, so a missing word that is not used does no harm.

`Sums`, `Totals`, `Transitions` and `Options` hold what several models share.

## Where the code differs from its documents or its purpose

- `Homework2/README.txt:37-38` says idle consumers block on `remainingSpace`; the code makes them
  block on `availableItems` (`Homework2/level3.c:50`), and the model follows the code.
- A URL without a path, which section 2.7.1 of RFC 7230 allows, is not parsed: `http://host` is
  refused, and `http://host:port` yields the resource `:port`. A URL that fits `url[1024]` comes
  back as host, port and path exactly when it has a path and an `int` holds the port.
- When a request has no keep-alive header, `strcpy` overwrites the request line that was just
  built (`Assignment3/jwh139-concurrent-proxy/proxy.c:111`), so the request line is lost. For a
  well-formed request of less than 10000 characters whose URL is shorter than 1024 and parses, the
  forwarded text is the intended one exactly when the header is there and the version is shorter
  than 1024 characters.
- `Homework1` reads the pipe only after all children have exited. It ends properly exactly when
  all partial sums fit the pipe together, which its limit of 100 processes guarantees.
- The client of `Lecture6/readnbytes` does not look at how much a write took; the peer gets the
  file exactly when every write takes its whole chunk.

## Model

| member | source | states |
|---|---|---|
| ProducerConsumer.EveryRunIsAFifoRun | Homework2/level3.c:29-68 | for any number of consumers every run is step by step a run of an atomic queue of capacity 8 that starts empty, and the k-th value handed out is k |
| ProducerConsumer.RefinesFifo | Homework2/level3.c:31-58 | writing a slot is a push of the next number into a queue with room, reading one is a pop of the oldest unread number, every other step leaves the queue read off the buffer unchanged |
| ProducerConsumer.StepKeepsInv | Homework2/level3.c:24-70 | no step of any thread breaks the token accounting, the slot contents, the lock discipline or the counters |
| ProducerConsumer.EveryStateIsSafe | Homework2/level3.c:29-68 | at every point of every run tokens sum to 8, no slot is raced for or overwritten unread, indices and window are exact between index updates, idle workers are parked with counts 0 and 8, the counters are exact, and for n up to 1000 nothing overflows |
| ProducerConsumer.EveryStateWaitsExactly | Homework2/level3.c:29-68 | at every point of every run the producer waits exactly while unread values and slots not yet given back make 8, a consumer at sem_wait exactly while every posted item is claimed, at the lock exactly while somebody is inside, main exactly for the producer and for the last item, and nobody anywhere else |
| ProducerConsumer.EightItemsWaiting | Homework2/level3.c:29-43 | with at least eight items 32 turns of the producer lead to a full buffer that holds 1 to 8, all unread, and then it waits |
| ProducerConsumer.EveryStepHasOrderedEffects | Homework2/level3.c:31-68 | an item is posted when it is in its slot and tail points behind it; head, sum and counter change only in the hands of the owner of the mutex; space is posted by one who no longer owns it |
| ProducerConsumer.TokensConserved | Homework2/level3.c:92-97 | both semaphores plus the threads between a wait and a post make up BUFFER_SIZE |
| ProducerConsumer.IndicesAtBoundary | Homework2/level3.c:36-58 | with no index update half done, tail and head are the numbers pushed and popped mod 8 and the window from head holds the consecutive values still unread |
| ProducerConsumer.WritesOnlyFreeSlots | Homework2/level3.c:36-37 | the slot about to be written holds no unread value |
| ProducerConsumer.NoSlotRace | Homework2/level3.c:36-57 | producer and reader never touch one slot, nor do two readers |
| ProducerConsumer.ParkedWhenNoWorkerMoves | Homework2/level3.c:48-54 | if no worker can move, all consumers wait for availableItems, the counts are 0 and 8, head equals tail and everything is summed |
| ProducerConsumer.NeverStuck | Homework2/level3.c:29-68 | until main returns some thread can move |
| ProducerConsumer.EveryRunEndsWithTheSum | Homework2/level3.c:113-127 | a run has at most 12n + 3 steps, and one that cannot be extended ends with main having printed n(n+1)(2n+1)/6 |
| ProducerConsumer.SumIsExact | Homework2/level3.c:55-63 | totalSum is the sum of squares of 1..processed when the mutex is free, processed never exceeds n, and leaving the spin implies the full sum |
| ProducerConsumer.NoOverflow | Homework2/level3.c:60-82 | for n up to 1000 every stored value and the addition fit a 32-bit int |
| ProducerConsumerThreads.Threads.ProducerStep | Homework2/level3.c:29-43 | the producer's next statement changes buffer, tail, semaphores and counters exactly as the step does |
| ProducerConsumerThreads.Threads.ConsumerStep | Homework2/level3.c:49-68 | a consumer's next statement changes the globals exactly as the step does |
| ProducerConsumerThreads.Threads.MainStep | Homework2/level3.c:113-127 | main's next statement is the step; the report reads the sum without the mutex |
| ProducerConsumerThreads.RunSchedule | Homework2/level3.c:101-127 | the threads in place, one turn for each entry of any schedule: a main that returned printed n(n+1)(2n+1)/6, and it has returned once nobody can move |
| WorkQueue.EveryStateIsSafe | Lecture9/cond_variable/main.c:26-38 | at every point of every run at most one thread is in a critical section, the processed messages, the one in hand and the queue are the appended messages in order, each once, a consumer asleep with work to do still has a signal coming, a pop finds a message, and somebody can move without a spurious wakeup |
| WorkQueue.EveryStateWaitsExactly | Lecture9/cond_variable/main.c:22-101 | at every point of every run a thread at the lock can go on exactly if nobody holds it, whether or not there is a message, the consumer in the wait only through a signal or a spurious wakeup, main exactly when the thread it joins has ended, and everybody else can |
| WorkQueue.ConsumerSleeps | Lecture9/cond_variable/main.c:26-29 | for every set of messages some run has the consumer asleep on the empty queue with the mutex free |
| WorkQueue.ConsumerWakesSpuriously | Lecture9/cond_variable/main.c:28-30 | in some run it then wakes up without a signal, finds nothing and stands before the wait again |
| WorkQueue.ConsumerIsSignalled | Lecture9/cond_variable/main.c:56-70 | in some run a producer wakes it, and it cannot go on before that producer has unlocked |
| WorkQueue.EveryStepHasOrderedEffects | Lecture9/cond_variable/main.c:26-79 | list and flag change only in the hands of the owner of the mutex, a producer signals while it owns it and the stopper after it has given it up, a message is used without it, and going to sleep gives it up in the same step |
| WorkQueue.StepKeepsInv | Lecture9/cond_variable/main.c:22-79 | no step breaks the lock discipline, the accounting of messages, the shutdown order or the absence of lost wakeups |
| WorkQueue.NeverStuck | Lecture9/cond_variable/main.c:82-101 | before main returns some thread other than a spurious wakeup can move |
| WorkQueue.DrainedOnExit | Lecture9/cond_variable/main.c:31-35 | a consumer that exited has processed every message once, in the order of the appends, and the queue is empty |
| WorkQueue.RunIsBounded | Lecture9/cond_variable/main.c:22-101 | with k producers and w spurious wakeups a run has at most 35k + 36 + 6w steps |
| WorkQueue.EveryRunDrainsTheQueue | Lecture9/cond_variable/main.c:92-100 | a run only a spurious wakeup could extend has returned from main with every message processed, because the producers are joined before the stopper starts |
| MessageQueue.MessageList.Append | Lecture9/cond_variable/main.c:58-67 | the walk ends, the list stays acyclic, exactly the new node is behind the old ones and no data changes |
| MessageQueue.MessageList.TakeFirst | Lecture9/cond_variable/main.c:37-38 | unlinks and returns the first node of a list that has one |
| WorkQueueThreads.Threads.ProducerStep | Lecture9/cond_variable/main.c:50-70 | a producer allocates and fills its message without the lock, and its next statement on the heap list is the step on the sequence |
| WorkQueueThreads.Threads.ConsumerStep | Lecture9/cond_variable/main.c:26-44 | the consumer's next statement on the heap list is the step on the sequence |
| WorkQueueThreads.Threads.ProcessMessage | Lecture9/cond_variable/main.c:41-44 | the unlinked message is used and freed without the lock; it was not freed before and is not in the list |
| WorkQueueThreads.Threads.StopperStep | Lecture9/cond_variable/main.c:74-79 | the stopper's next statement, with the signal after the unlock |
| WorkQueueThreads.RunSchedule | Lecture9/cond_variable/main.c:82-101 | the threads in place, one turn for each entry of any schedule: a main that returned leaves an empty list, every message processed once in append order, and exactly the messages that were allocated freed; it has returned once only spurious wakeups are possible |
| Rio.Readn | Assignment3/jwh139-concurrent-proxy/csapp.c:529-548 | returns -1 exactly when a hard error was met, otherwise the next min(n, left) bytes in order; touches no other byte of the buffer |
| Rio.Writen | Assignment3/jwh139-concurrent-proxy/csapp.c:555-572 | sends its n bytes once and in order whatever mixture of short writes and interruptions it meets; -1 after a hard error always, after a write of nothing exactly when no interruption has left EINTR in errno, and for no other reason; then a proper prefix is sent |
| Rio.Reader.constructor | Assignment3/jwh139-concurrent-proxy/csapp.c:617-622 | an empty window at the descriptor's position |
| Rio.Reader.Read | Assignment3/jwh139-concurrent-proxy/csapp.c:585-610 | hands out as many bytes as asked for or all that are buffered, the next ones at the reader's position; calls read only when nothing is buffered, for 8192 bytes; 0 only at the end of the stream |
| Rio.Reader.Readnb | Assignment3/jwh139-concurrent-proxy/csapp.c:629-648 | the next min(n, left) bytes, whatever is buffered and however read fragments |
| Rio.Reader.Readlineb | Assignment3/jwh139-concurrent-proxy/csapp.c:655-676 | stores exactly the bytes up to LineEnd, within maxlen - 1, and a zero behind them; the count is exact precisely when a newline ended the line and one too many otherwise, 0 precisely at end of file |
| Rio.ServeAll | Assignment3/jwh139-concurrent-proxy/csapp.c:585-675 | for any sequence of rio_readnb and rio_readlineb calls on one rio_t and any fragmentation, what the calls left in the buffer, joined together, then the internal buffer, then the kernel make up the unread stream, also when a hard error ends the sequence; the answers are what the requests served before the error deserve |
| Rio.ReadLines | Assignment3/jwh139-concurrent-proxy/csapp.c:655-676 | rio_readlineb called until it returns 0 leaves the lines of the stream in the buffer one after the other, and joined together they are the whole stream; a hard error leaves the lines before it and the start of the line it hit |
| Rio.LineEndExactly | Assignment3/jwh139-concurrent-proxy/csapp.c:660-672 | LineEnd is the only position with no newline before the last byte and with a newline, the cap or the end of the stream as reason to stop |
| Rio.LinesAreLines | Assignment3/jwh139-concurrent-proxy/csapp.c:655-676 | every line is nonempty, within the cap, and has a newline at most as its last byte |
| Rio.Serve | Assignment3/jwh139-concurrent-proxy/csapp.c:629-676 | one call stores exactly the bytes the reader moves past, even when it meets a hard error, and otherwise moves to where the request ends |
| FileTransfer.ReadNBytes | Lecture6/readnbytes/server.c:11-35 | -1 exactly on a hard error, otherwise the next min(n, left) bytes in order; nothing for n <= 0 |
| FileTransfer.Receive | Lecture6/readnbytes/server.c:73-78 | without a hard error the stored file is the whole stream and count its length; after one it is the whole blocks before it |
| FileTransfer.Send | Lecture6/readnbytes/client.c:38-44 | the peer gets exactly the file if and only if every write takes its whole chunk; in any case of every chunk written what its write took; the status is -1 if and only if one of the writes fails, and then nothing is written behind it |
| FileTransfer.DeliveredWhole | Lecture6/readnbytes/client.c:39-42 | what the first i writes deliver is never longer than the first i chunks, and as long, and then equal to them, exactly when each took its whole chunk |
| FileTransfer.ChunkExamples | Lecture6/readnbytes/client.c:40 | the chunks of some file lengths in numbers |
| FileTransfer.TransferFile | Lecture6/readnbytes/client.c:38-44 | as long as no read meets a hard error, client and server together store the file unchanged if and only if every write takes its whole chunk, under any fragmentation |
| ProxyLog.EveryRunLogsWholeEntries | Assignment3/jwh139-concurrent-proxy/proxy.c:519-541 | the log is always its initial contents followed by the whole entries written, each child's in its order and once, and a run that cannot be extended has logged all of them |
| ProxyLog.StepKeepsInv | Assignment3/jwh139-concurrent-proxy/proxy.c:640-662 | a lock holder between seek and write stands at the end of the file, so its write appends |
| ProxyLog.EveryStateWaitsExactly | Assignment3/jwh139-concurrent-proxy/proxy.c:519-541 | at every point of every run a child with something to write or to give back can go on unless it is at the lock and another child holds it |
| ProxyLog.EffectsInOrder | Assignment3/jwh139-concurrent-proxy/proxy.c:520-541 | the file changes only in the hands of the owner of the lock, by one whole entry at its end |
| ProxyLog.LogFile.ChildStep | Assignment3/jwh139-concurrent-proxy/proxy.c:520-541 | a child's next call changes file, lock and offset exactly as the step does |
| ProxyLog.RunSchedule | Assignment3/jwh139-concurrent-proxy/proxy.c:519-541 | the children in place, one turn for each entry of any schedule: the log is its initial contents and whole entries, and complete once nobody can move |
| Scan.NumeralScans | Assignment3/jwh139-concurrent-proxy/proxy.c:60 | %d reads back the number whose decimal numeral was written |
| Scan.SignScans | Assignment3/jwh139-concurrent-proxy/proxy.c:60 | %d reads a sign in front of the digits |
| ProxyRequest.PortUrlRoundTrip | Assignment3/jwh139-concurrent-proxy/proxy.c:420-423 | for a URL its array holds, http://host:port/path parses to the same triple if and only if the path is not empty and an int holds the port; an empty path yields the resource ":port" |
| ProxyRequest.PlainUrlRoundTrip | Assignment3/jwh139-concurrent-proxy/proxy.c:420-423 | for a URL its array holds, http://host/path parses to host, 80 and path, although the first attempt failed half way, if and only if the path is not empty; otherwise it is refused |
| ProxyRequest.UrlRefusedExactly | Assignment3/jwh139-concurrent-proxy/proxy.c:60-64 | a URL is refused if and only if it does not have the shape http://, a host of at least one character, a colon or slash |
| ProxyRequest.RefusedByName | Assignment3/jwh139-concurrent-proxy/proxy.c:60-64 | a path alone, https, an empty host and a host alone are refused |
| ProxyRequest.TargetFitsArrays | Assignment3/jwh139-concurrent-proxy/proxy.c:420-423 | host and resource together are shorter than the URL, so their arrays of 1024 hold them, and a port that is returned is a 32-bit int |
| ProxyRequest.RewriteRequest | Assignment3/jwh139-concurrent-proxy/proxy.c:99-114 | the buffer the statements build is "GET resource version", the text in front of the leftmost keep-alive header, the close header and the text behind; without the header it is the remaining text alone |
| ProxyRequest.ForwardsOriginForm | Assignment3/jwh139-concurrent-proxy/proxy.c:413-482 | for a well-formed request line with GET in any case whose URL parses, the forwarded text is "GET resource version" and the text with exactly its leftmost keep-alive header replaced, all else kept, if and only if there is such a header and method and version are shorter than 1024; without the header the text goes out alone |
| ProxyRequest.PortRequestForwarded | Assignment3/jwh139-concurrent-proxy/proxy.c:53-114 | a request for http://host:port/path with a keep-alive header, within the arrays and the range of int, leaves in origin form, from which a server reads back GET, path and version; only the header changed, strictly shorter than it came, hence inside request[10000] |
| ProxyRequest.PlainRequestForwarded | Assignment3/jwh139-concurrent-proxy/proxy.c:53-114 | the same for a URL without a port |
| ProxyRequest.ServerReads | Assignment3/jwh139-concurrent-proxy/proxy.c:100 | the request line that is built scans into GET, the resource and the version, in this order |
| ProxyRequest.HandleGet | Assignment3/jwh139-concurrent-proxy/proxy.c:56-114 | the GET branch with its variables updated in place computes the request that is sent, refuses a bad URL whether or not a version is there, and says where the C code has no defined behaviour |
| ProxyRequest.HandleRequest | Assignment3/jwh139-concurrent-proxy/proxy.c:51-56 | the request line is scanned with words possibly missing and the method judged in the order of the code |
| ProxyRequest.MethodDecides | Assignment3/jwh139-concurrent-proxy/proxy.c:51-285 | once the words fit their arrays a method other than GET and CONNECT is refused whatever follows it, CONNECT always goes to its own branch, and only a GET is ever forwarded |
| ProxyRequest.MethodsByName | Assignment3/jwh139-concurrent-proxy/proxy.c:51-285 | POST and HEAD are refused and CONNECT, in capitals or not, is tunnelled, whatever follows |
| ProxyRequest.GetInAnyCase | Assignment3/jwh139-concurrent-proxy/proxy.c:56 | the test for GET accepts exactly the words that begin with GET in any mixture of cases |
| ProxyRequest.ConnectInAnyCase | Assignment3/jwh139-concurrent-proxy/proxy.c:174 | the same for CONNECT |
| ProxyRequest.UrlDecides | Assignment3/jwh139-concurrent-proxy/proxy.c:53-65 | a GET line that ends behind its URL is refused exactly when the URL is |
| RaceCounter.ResultsExactly | Lecture8/non_mutex/main.c:13-24 | the results some interleaving of two unlocked threads reaches are exactly 2..2*NLOOP when NLOOP is at least 2 |
| RaceCounter.LoseAllButTwo | Lecture8/non_mutex/main.c:16-22 | from any point between rounds an interleaving exists that keeps only two further increments |
| RaceCounter.NobodyWaits | Lecture8/non_mutex/main.c:16-22 | at any reachable point a thread with a round left can move |
| RaceCounter.Counter.DoIt | Lecture8/non_mutex/main.c:16-22 | the next half of an increment in place is the step |
| RaceCounter.RunSchedule | Lecture8/non_mutex/main.c:26-38 | the threads in place, one turn for each entry of any schedule, end between 2 and 2*NLOOP |
| MutexCounter.EveryRunCountsExactly | Lecture8/mutex/main.c:13-24 | with the mutex every run ends, and with exactly one increment for every round of every thread |
| MutexCounter.EveryStateWaitsExactly | Lecture8/mutex/main.c:16-22 | at every point of every run a thread with rounds left can move unless it is at the lock and another one is behind it |
| MutexCounter.EffectsInOrder | Lecture8/mutex/main.c:16-22 | the counter changes by one in the hands of the owner of the mutex, who gives it back after every round |
| MutexCounter.Counter.DoIt | Lecture8/mutex/main.c:16-22 | a thread's next statement in place is the step |
| MutexCounter.RunSchedule | Lecture8/mutex/main.c:26-38 | the threads in place, one turn for each entry of any schedule, end with every round counted |
| WorkSplit.ChunksTile | Homework1/main.c:48 | every number of 1..n is in exactly one chunk and no chunk reaches outside it |
| WorkSplit.ChunkEnds | Homework1/main.c:48 | chunk i ends at the largest integer that is at most (i + 1)n/p and starts behind the end of chunk i - 1 |
| WorkSplit.ChunkSizes | Homework1/main.c:29-48 | a chunk has floor(n/p) or ceil(n/p) elements, at least two when p <= n/2 |
| WorkSplit.BoundsFitInt | Homework2/main.c:44-59 | no product overflows for the accepted arguments |
| PipeSum.DeadlockFreeExactlyWhenAllFit | Homework1/main.c:38-66 | every run is finite, and one that cannot be extended has delivered n(n+1)/2 if and only if all p integers fit the pipe at once |
| PipeSum.AcceptedArgumentsNeverDeadlock | Homework1/main.c:25-66 | with at most 100 processes and a pipe of at least 512 bytes the program always ends with n(n+1)/2, which fits an int |
| PipeSum.EveryStateWaitsExactly | Homework1/main.c:45-66 | at every point of every run a child waits exactly while its four bytes do not fit behind those of the children that have exited, and the parent exactly for children that have not |
| PipeSum.EveryStateFitsInt | Homework1/main.c:48-66 | at every point of every run what the parent has added up, what it has after the next read, the integers in the pipe and those about to be written are between 0 and the final sum, which for n up to 1000 fits a 32-bit int |
| PipeSum.ComputePartialSum | Homework1/main.c:9-15 | the loop computes the sum of from..to |
| PipeSum.Processes.ChildStep | Homework1/main.c:45-53 | a child's next statement in place is the step |
| PipeSum.Processes.ParentStep | Homework1/main.c:57-66 | the parent's next statement in place is the step |
| PipeSum.RunSchedule | Homework1/main.c:38-66 | the processes in place, one turn for each entry of any schedule: a parent that is done has n(n+1)/2, and once nobody can move it is done exactly when all integers fit the pipe |
| MutexSum.EveryRunPrintsTheSum | Homework2/main.c:18-76 | under every interleaving at most 4n + 1 steps, and the printed total is n(n+1)(2n+1)/6 for any number of threads |
| MutexSum.EveryStateWaitsExactly | Homework2/main.c:23-30 | at every point of every run a thread with numbers left can move unless it is at the lock and somebody is inside, and main exactly when no thread has any |
| MutexSum.EffectsInOrder | Homework2/main.c:23-30 | the total changes by one square in the hands of the owner of the mutex, who gives it back after every number |
| MutexSum.EveryStateFitsInt | Homework2/main.c:23-30 | at every point of every run the total and the value about to be stored are between 0 and the final sum, which for n up to 1000 fits a 32-bit int |
| MutexSum.FillBounds | Homework2/main.c:55-59 | entry i of thisBounds gets the i-th chunk |
| MutexSum.Threads.WorkerStep | Homework2/main.c:23-30 | a thread's next statement in place is the step |
| MutexSum.RunSchedule | Homework2/main.c:53-76 | the threads in place, one turn for each entry of any schedule: what main printed is n(n+1)(2n+1)/6, and it has printed once nobody can move |
| Sums.SquaresClosedForm | Homework2/README.txt:4-5 | the sum of 1^2..n^2 is n(n+1)(2n+1)/6 |
| Sums.SquaresFitInt | Homework2/level3.c:82 | for n up to 1000 the sum of squares fits a 32-bit int |

## Left out

- Sockets, DNS, connection set-up, option parsing, printing, timestamps, sleeps and the formatting
  of log entries; a log entry is any text, a processed message is recorded instead of printed.
- Weak memory: the concurrent models assume sequential consistency, although main's unlocked loop in
  `Homework2/level3.c:117` and the counter of `Lecture8/non_mutex` are data races in C. The
  addition `totalSum += val * val` of level3.c is one step; it happens under the mutex.
- Fairness: what is shown is that runs are bounded, never stuck early and end properly, so a
  scheduler that keeps running enabled threads reaches the end. Main's failing tests of
  `processed < n` are not steps.
- Failing system calls in the concurrent programs and in the log (fork, open, fcntl, sem_wait and
  short log writes).
- The creation of threads and children one after the other: all exist from the start, and a late
  creation is a thread that has not been scheduled yet. main of `Lecture9/cond_variable` starts four
  producers; any number is modelled.
- WorkQueueThreads.Threads.ProcessMessage: a freed message stays an object that nothing uses, and an
  address is never handed out twice.
- Kernel streams: end of file is permanent, the script of outcomes is finite (so EINTR comes finitely
  often), and a read of a positive count delivers at least one byte before the end.
- Rio.Reader.Readlineb: its counter is an `int`; a line of 2^31 bytes is not considered.
- FileTransfer.Receive: `count` in the server is an `int`; a file of 2^31 bytes is not considered.
- FileTransfer.Send: `bytes` in the client is an `int` as well, with the same limit.
- ProxyRequest.ForwardsOriginForm: bytes behind a NUL in the request are not modelled.
- The response relay, the CONNECT tunnel, thread-mode hand-off and logging of the proxy, and
  `format_log_entry`.
- `Assignment2`, which has the same Rio code and the same request handling with one client at a time
  and no shared log.
- `Assignment1`, a case-insensitive substring count by one scan of a file in memory.
- The programs of the other lectures, `MidtermPractice` and `ipc_code`: each shows a library or system
  call or a bare client and server (files, directories, fork and exec, signals, sockets, pipes,
  message queues, shared memory). What they do is what those calls do, and the calls are not modelled.
