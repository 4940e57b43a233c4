# cppio: a verified model

cppio is a small C++20 runtime for coroutines, with sockets, addresses and an HTTP message layer on top.
This project models its four parts that carry hard properties, and a fifth small one, and proves the
properties.

| Part | Files | What is proved |
|---|---|---|
| Coroutine stepping | `Coroutine.dfy`, `TaskChain.dfy`, `TaskStore.dfy` | The pointer machine of `one_step`, which walks and relinks frames on the heap, means the same as executing the nested awaits directly: same actions, same order, same values, and an end. |
| Reactor | `Ownership.dfy`, `TimerPool.dfy`, `Reactor.dfy`, `Workers.dfy` | For any number of workers and every interleaving, each active task is in exactly one place, and each coroutine tree does exactly what its direct execution does. With one worker, the loop terminates, turns are fair, and timers fire as a plain list of adds says. |
| Addresses | `Ip.dfy`, `Endpoint.dfy` | `parse` undoes `to_string` for every address and endpoint; the IPv6 text is canonical; the texts on which `parse` throws, or does something undefined, are known exactly. |
| HTTP messages | `Encoding.dfy`, `Headers.dfy`, `Message.dfy`, `Response.dfy`, `Request.dfy` | `create` undoes `serialize`, as far as the code allows, with the exact condition where it does not; the texts on which `create` succeeds, fails or throws are known exactly. |
| Byte streams | `Stream.dfy` | The retry loops of the TCP socket neither lose, repeat nor reorder bytes. |

`Text.dfy` has searching with its wrap-around of `npos`, splitting, and decimal and hexadecimal numbers;
`Wrappers.dfy` has `Option`, `Sequences.dfy` the two ends of a sequence.

## How the model is built

**Coroutines.** A coroutine body is a finite program of effects, timer starts, registrations, marks (`wait`
and `cancel_wait`), suspensions, awaits of fresh or finished tasks, spawns, branches and a return. Its
conditions, arguments and values are arbitrary functions of the locals. The outside world is a function
from everything the task has done so far to the outcome of the last action, so a theorem for all worlds is
a theorem for all behaviours of sockets and clocks. `Exec` is the reference: it runs an awaited child on the
spot. `Step` is one call of `one_step` on values, and class `Task` is the same on the heap, with the two
handles of each promise. Class `Store` has any number of such tasks on the heap, none sharing a frame with
another, and shows that adding, waking and stepping one of them is what it is on a map of values. The reactor
is modelled over that map: it steps coroutines as values, not the heap tasks themselves.

**Reactor.** `Ownership` is a step system with one label per section under the lock, per store to the state
of a task, and per wake-up; what coroutines do is left open there. `Possible` is what the code looks at before a
step, and `Guarded` what it takes for granted. Class `Reactor` is the code with one thread in `run()`; its ghost
field `trace` shows that all it does is a run of that step system. Module `Workers` is any number of threads,
with a coroutine tree for each task; its runs are runs of the step system too. The guards are:

* for `BeginWake`: a wake-up of a task is delivered only when no worker holds it. With one thread this is
  automatic, and `Reactor` proves it. With several the code does not enforce it, and it stays an assumption of
  `Workers`. Without it, two workers come to be inside `one_step` of the same task
  (`UnguardedWakeDoubles`, `WakeInsideIsReached`).
* for `Arm`, `Refuse`, `Suspend` and `Finish`: a task suspends in state kWait exactly when it left one timer or
  registration behind. `StepKeepsDiscipline` proves this of every coroutine whose awaitables keep
  the discipline, and `AwaitablesAreDisciplined` that those of the library do; `Reactor` and `Workers` prove
  the guards from it.

`GuardIsExact` shows that ownership needs exactly these guards. Equal deadlines, doubly registered descriptors
and refused registrations are not excluded: a task that is dropped from the timer set, or whose registration is
replaced or refused, goes to the set `lost`. `NothingLostIff` gives the exact condition under which no task is
lost, and `LostNeverWakes` what it means to be.

**Text.** A text is a sequence of characters; where bytes matter they are characters below 256. An exception
that leaves a `noexcept` function is an outcome of its own (`Throws`), and so is a read outside of a text
(`Undefined`). `inet_pton` is not part of
the repository; it is given here by section 2.2 of RFC 4291 and the IPv4address rule in section 3.2.2 of
RFC 3986.

## Where the code surprises

These are kept as they are, and each is stated by a member of the model.

* A timer with a deadline that is already pending is dropped, and its task never wakes
  (`Ownership.EqualDeadlinesLoseATask`, `Ownership.LostNeverWakes`).
* With a timer pending, `run()` waits for it even though a task is ready; only without timers does a ready
  task make the timeout zero (`TimerPool.PollBound`).
* `url_encode` appends a NUL (`Encoding.DecodeUndoesEncode`).
* `request::serialize` puts nothing between two parameters, and keys are not decoded by `create`, so a request
  with parameters never reads back as it was (`Request.RequestRoundTripIff`, `Request.QueryReadsOneKey`).
* A head without header lines is rejected (`Response.NoHeadersIsInvalid`, `Request.RequestRoundTripIff`).
* `header_map::create` lets an exception out, though it is `noexcept`, exactly if a line that ends at its first
  colon comes before any line without a colon; it does not look at the character behind the colon
  (`Headers.CreateOutcome`).
* `response::create` and `request::create` let it through, and `response::create` also throws if no number stands
  in the place of the status (`Response.CreateResponseOutcome`, `Request.CreateRequestOutcome`).
* `response::serialize` leaves the Content-Length it added in the response (`Response.Response.Serialize`).
* `endpoint::parse`, which is `noexcept`, throws on a printed IPv6 address without its brackets, unless a decimal
  digit follows the last colon (`Endpoint.BareV6Iff`, `Endpoint.ThrowsExactly`); and it reads in front of an empty
  text if only a colon and a port are given (`Endpoint.UndefinedExactly`).
* `read_exactly` returns 0, not the count, on success (`Stream.ReadExactly`).

## Model

| member | source | states |
|---|---|---|
| Coroutine.ResumeKeepsExec | src/cppio/task.hpp:48-74 | Resuming a frame up to its next suspension, return or await leaves the value and the history of its direct execution as they were; an awaiting frame goes on with the value of its child |
| Coroutine.StepKeepsMeaning | src/cppio/basic_task.cpp:32-65 | One call of `one_step` changes neither the value that the root will return nor the actions that will have been performed, in their order, for every coroutine tree and every world |
| Coroutine.WaitingEndsStep | src/cppio/basic_task.cpp:42-59 | Once the innermost frame has left the task in kWait, the step performs nothing more; it reports the end only if that frame returned and was the root |
| Coroutine.StepStops | src/cppio/basic_task.cpp:42-59 | A step of a disciplined task goes exactly as far as the next suspension point of its direct execution, through every frame that returns on the way, and stops there with exactly what had been done; it finishes the task exactly if none is left |
| Coroutine.StepsAreStops | src/cppio/basic_task.cpp:32-65 | A disciplined task is done after exactly one step more than it has suspension points left |
| Coroutine.SleepStep | src/cppio/sleep.cpp:7-16 | The step of a task that sleeps starts one timer with the delay that was asked for, and leaves the task waiting in front of what follows |
| Coroutine.WaitStep | src/cppio/network/posix/tcp_socket.cpp:74-81 | The step of a task that waits for a descriptor asks for that descriptor, which counts if the kernel accepted, and leaves the task waiting whatever the answer |
| Coroutine.StepShrinks | src/cppio/basic_task.cpp:38-64 | Each step strictly uses up instructions: what the tree has left plus what it gave to spawned tasks is less than what it had |
| Coroutine.DriveKeepsMeaning | src/cppio/basic_task.cpp:32-65 | Stepping any suspended task, with a wake after each wait, ends, with the value and the history of its direct execution |
| Coroutine.DriveIsExec | src/cppio/basic_task.cpp:32-65 | Refinement: a fresh task stepped to its end performs exactly the actions of the depth-first nested execution, in that order, and returns the value of the root |
| Coroutine.AwaitablesAreDisciplined | src/cppio/sleep.cpp:7-16 | `sleep`, the waiting part of the socket loops and the order used by `connect` suspend in kWait with exactly one wake-up left behind |
| Coroutine.StepKeepsDiscipline | src/cppio/basic_task.cpp:32-65 | A step of a disciplined task ends in kWait exactly when it left one timer or registration behind, leaves at most one, and what it leaves suspended or spawned is disciplined |
| TaskChain.Task.ChainShape | src/cppio/basic_task.cpp:38-64 | The frames reachable by inner handles form a finite chain without repetition; the outer handles are the exact inverse; only a root that is alone may be done |
| TaskChain.Task.constructor | src/cppio/task.hpp:27-30 | A new task is a chain of one frame that stands for its code before the first step |
| TaskChain.Task.AwaitSuspend | src/cppio/task.hpp:58-64 | Links the frame of the child below the one that awaits it: the chain grows by one, stays valid, and stands for the child running inside its awaiter |
| TaskChain.Task.AwaitResume | src/cppio/task.hpp:71-74 | The awaiter takes over the value of the child, and the chain stays valid |
| TaskChain.Task.ReturnValue | src/cppio/task.hpp:106-115 | The frame is done, with that value, and the rest of the chain is untouched |
| TaskChain.Task.ResumeFrame | src/cppio/basic_task.cpp:44-44 | Resuming the innermost frame on the heap does what the resumption of its code does on values, in each of the three ways it can end |
| TaskChain.Task.Pop | src/cppio/basic_task.cpp:50-54 | Going back to the outer frame takes the finished one off the chain and hands its value to the awaiter |
| TaskChain.Task.OneStep | src/cppio/basic_task.cpp:32-65 | The heap machine refines the step on values, so for a disciplined task it reports kDone exactly if no suspension point is left and else stops exactly at the next one; the result is kDone exactly when the root returned, else the state; the chain stays valid; at most as many frames are resumed as the chain had on entry |
| TaskChain.Task.StepLeaf | src/cppio/basic_task.cpp:40-64 | The inner loop, with the same promise, from the innermost frame |
| TaskChain.Task.WakeUp | src/cppio/basic_task.cpp:6-10 | `wake` clears the waiting state and nothing else of the task |
| TaskChain.Task.RunToEnd | src/cppio/basic_task.cpp:32-65 | Stepping the heap machine until the root is done terminates, and gives the value and the history of direct execution |
| TaskStore.Store.Add | src/cppio/task.hpp:27-30 | A new task among others on the heap starts with its code, shares no frame with them, and leaves them as they are |
| TaskStore.Store.Wake | src/cppio/basic_task.cpp:6-10 | Waking one task among others on the heap is waking it on a map of values |
| TaskStore.Store.Step | src/cppio/basic_task.cpp:32-65 | Stepping one task among others on the heap is stepping it on a map of values, with the result that one_step reports; no other task changes |
| Ownership.StepKeepsInv | src/cppio/impl/basic_reactor.inl:70-106 | Every atomic step of every worker keeps ownership, and a popped task is never found waiting |
| Ownership.RunKeepsInv | src/cppio/impl/basic_reactor.inl:70-106 | Ownership holds after every run of any number of workers |
| Ownership.ExactlyOnePlace | src/cppio/impl/abstract_reactor.cpp:6-22 | After every run each active task is in exactly one place, once (ready in kRun, held by one worker, in transit inside `wake`, or in kWait with one source, which may be pending or lost), and any other task is in none |
| Ownership.ExactlyOneSource | src/cppio/impl/abstract_reactor.cpp:6-22 | After every run without equal pending deadlines, doubly registered descriptors and refused registrations, the last place is kWait with exactly one pending timer or completion |
| Ownership.Conservation | src/cppio/impl/basic_reactor.inl:89-104 | Tasks added equal active plus erased, each erased once; when nothing is active any more, nothing is ready, held, pending or in transit |
| Ownership.LostGrows | src/cppio/impl/timer_pool.hpp:31-34 | A step loses a source exactly if it starts a timer with a pending deadline, registers a registered descriptor, or is refused a registration |
| Ownership.LostNeverWakes | src/cppio/impl/timer_pool.hpp:31-34 | In every run that goes on from there, a lost task stays active and is never ready, held, in transit or pending again |
| Ownership.NothingLostIff | src/cppio/impl/timer_pool.hpp:31-34 | Over any run, no source is lost if and only if no such step is taken |
| Ownership.EqualDeadlinesLoseATask | src/cppio/impl/timer_pool.cpp:16-20 | A run from the start in which a second sleeper with the same deadline is lost, and with another deadline is not |
| Ownership.GuardIsExact | src/cppio/impl/basic_reactor.inl:89-104 | A step that the code can take keeps ownership if and only if its guard holds, but for losing again a task that is lost already |
| Ownership.WakeGuardIsExact | src/cppio/basic_task.cpp:6-10 | Delivering a wake-up keeps ownership if and only if no worker holds the task |
| Ownership.UnguardedWakeDoubles | src/cppio/basic_task.cpp:6-10 | If a wake-up is delivered while a worker is inside `one_step` of the task, steps that the code then takes put a second worker inside `one_step` of it |
| Ownership.WakeInsideIsReached | src/cppio/sleep.cpp:7-16 | A run from the start to a state in which such a wake-up can be delivered |
| TimerPool.InsertIsSetInsert | src/cppio/impl/timer_pool.hpp:31-38 | Insertion keeps deadlines increasing, adds an entry with a new deadline, and changes nothing for one that is there |
| TimerPool.Pool.Add | src/cppio/impl/timer_pool.cpp:16-20 | The pool afterwards is the set insertion of the new deadline and task |
| TimerPool.Pool.GetDelay | src/cppio/impl/timer_pool.cpp:28-52 | Wakes the due entries in increasing order and keeps the others; returns the time to the next deadline, which is zero exactly if none is left |
| TimerPool.PoolHoldsFirstAdds | src/cppio/impl/timer_pool.cpp:16-52 | Over any sequence of adds and polls the pool holds exactly the first-added task of each deadline that a plain list of adds still has |
| TimerPool.PollWakesDue | src/cppio/impl/timer_pool.cpp:35-43 | A poll wakes exactly the first-added tasks of the deadlines up to now, in increasing order |
| TimerPool.PollFindsNext | src/cppio/impl/timer_pool.cpp:44-51 | A poll returns the distance to the least deadline left in the list of adds, or zero if none is left |
| TimerPool.PollBound | src/cppio/impl/basic_reactor.inl:37-43 | With a timer pending, the millisecond timeout never passes the deadline and falls short by less than 1 ms, if and only if the delay is below 2^31 ms; with none it is 0 if a task is ready and 1000 if not |
| Reactor.Reactor.constructor | src/cppio/impl/basic_reactor.inl:10-13 | An empty reactor, in the initial state of the step system |
| Reactor.Reactor.Add | src/cppio/impl/abstract_reactor.cpp:6-11 | A spawned task becomes active and goes behind the ready list, with nothing else of the reactor changed; it is one step of the step system |
| Reactor.Reactor.StartTimer | src/cppio/impl/abstract_reactor.cpp:19-22 | A timer due `delay` after the clock reading is in the pool and pending, and is that of the task unless its deadline was taken; no other timer goes away, nothing else changes, and the step system stays tied to the pool |
| Reactor.Reactor.Register | src/cppio/impl/posix/epoll.cpp:39-63 | An accepted registration is that of the task being stepped, in place of an earlier one of the descriptor; a refused one leaves the reactor as it is and the task without a source; nothing else changes |
| Reactor.TasksStep | src/cppio/impl/basic_reactor.inl:89-104 | A step keeps every task on the way of its direct execution, and active until it has reached the end |
| Reactor.Reactor.Perform | src/cppio/impl/basic_reactor.inl:90-91 | All that a task did in a step reaches the reactor, in order: its spawned tasks, its timer or its registration |
| Reactor.Reactor.StepTask | src/cppio/impl/basic_reactor.inl:86-93 | The task has advanced by one `one_step`, the reactor has what it did, and nothing else changed; the task is in kWait exactly if it armed a source; the work left shrinks |
| Reactor.HappenedLeaves | src/cppio/impl/timer_pool.cpp:16-20 | Of all that a task does in a step, every timer is in the pool, due its delay after the clock reading, and every accepted registration is its own; no pending timer goes away |
| Reactor.SteppedLeaves | src/cppio/impl/timer_pool.cpp:16-20 | The same of the whole step, which advances the coroutine by one `one_step` |
| Reactor.SpawnsInOrder | src/cppio/impl/abstract_reactor.cpp:6-11 | The tasks spawned in a step stand behind the ready list in their order, each active and at the beginning of its code; nothing else happens to tasks |
| Reactor.Reactor.Settle | src/cppio/impl/basic_reactor.inl:95-104 | A task that runs on goes behind the ready list, a finished one leaves the active set, a waiting one is let go |
| Reactor.Reactor.Turn | src/cppio/impl/basic_reactor.inl:83-105 | The whole new state after a turn; the invariant is kept; the task is in the list again, as its last entry, exactly if it runs on without waiting |
| Reactor.Reactor.NextTurn | src/cppio/impl/basic_reactor.inl:72-105 | Takes the front entry, gives it its turn, and leaves less work |
| Reactor.Reactor.ProcessTasks | src/cppio/impl/basic_reactor.inl:70-106 | Terminates with nothing ready; every active task waits, with its timer or registration pending unless that was lost; the states in between are a chain of turns in queue order |
| Reactor.Fifo | src/cppio/impl/basic_reactor.inl:79-99 | An entry at position k of the ready list is stepped after exactly k other turns |
| Reactor.YieldIsFair | src/cppio/impl/basic_reactor.inl:95-99 | Between two consecutive steps of a task that yields, every task queued ahead of its new entry is stepped exactly once, in order, and no other is |
| Reactor.Reactor.WakeFrom | src/cppio/basic_task.cpp:6-10 | A wake-up uses up its source, makes the task runnable and puts it behind the ready list |
| Reactor.Reactor.WakeDue | src/cppio/impl/timer_pool.cpp:35-43 | The due timers are woken in order, and the remaining pool stays tied to the step system |
| Reactor.Reactor.Deliver | src/cppio/impl/posix/epoll.cpp:25-31 | In the order of the completions, each registered descriptor loses its registration and its task is ready then, behind the tasks that were; exactly the other registrations remain |
| Reactor.Reactor.Poll | src/cppio/impl/basic_reactor.inl:37-43 | Due timers are woken behind the ready list in the order of deadlines, and a sleeping task is ready afterwards exactly if its deadline has come; the timeout is that of the pool and of whether anything is ready |
| Reactor.Reactor.RunRounds | src/cppio/impl/basic_reactor.inl:30-51 | For any completions delivered and any moment at which the reactor is stopped, the run is a sequence of rounds (poll, then turns until nothing is ready); it leaves by its condition exactly if nothing is active, and then every task ever added has done what its direct execution does |
| Reactor.SleeperWakes | src/cppio/impl/basic_reactor.inl:32-51 | In any sequence of rounds, a sleeper keeps its timer through every poll before its deadline and all turns between, and the first poll at the deadline or later makes it ready |
| Workers.OwnStep | src/cppio/impl/basic_reactor.inl:83-104 | With coroutine trees for the tasks, every step of any worker has the guard of the step system; only that of the wake-ups was assumed |
| Workers.NeverPasses | src/cppio/impl/basic_reactor.inl:89-91 | A task taken from the ready list is not waiting |
| Workers.StepKeepsInv | src/cppio/impl/basic_reactor.inl:70-106 | Every step of any worker keeps each task on the way of its direct execution, and what a worker inside `one_step` has done and has to do add up to the step |
| Workers.RunKeepsInv | src/cppio/impl/basic_reactor.inl:70-106 | Every run with any number of workers is a run of the step system, and keeps that invariant |
| Workers.AnyWorkers | src/cppio/impl/basic_reactor.inl:30-106 | With any number of workers and in every interleaving, each task that is not being stepped is some way into the direct execution of its code, and when nothing is active any more every task ever submitted or spawned has done exactly what its direct execution does |
| Workers.AnyWorkersOwn | src/cppio/impl/basic_reactor.inl:30-106 | And each active task is in exactly one place, and tasks are conserved |
| Workers.DoIs | src/cppio/impl/abstract_reactor.cpp:6-22 | What each thing that a stepped task does changes: a timer is due its delay after the clock reading, a registration is that of the task, a refusal leaves it without a source, a spawned task is ready at the beginning of its code |
| Workers.NeverStuck | src/cppio/impl/basic_reactor.inl:83-104 | A worker that holds a task can always take the next step of its turn |
| Workers.CanReturn | src/cppio/impl/basic_reactor.inl:89-104 | And with nothing left to do it can return from `one_step` once the state is stored |
| Text.SplitUndoesJoin | src/cppio/network/http/request.inl:55-57 | Cutting at every occurrence of a character undoes joining pieces that do not contain it |
| Text.JoinUndoesSplit | src/cppio/network/http/request.inl:55-57 | Every text is the join of its pieces, and no piece contains the separator |
| Text.NumeralValue | src/cppio/network/endpoint.cpp:128-129 | A printed number denotes the number, in base 10 and 16 |
| Text.NumeralCanonical | src/cppio/network/ip.cpp:89-121 | A printed number has no leading zero and only lower-case digits |
| Text.NumeralIsOnly | src/cppio/network/endpoint.cpp:128-129 | No other decimal text without leading zeros denotes the number |
| Text.DigitsAre | src/cppio/network/ip.cpp:89-121 | The digits are those of ASCII |
| Text.StoulOfDecimal | src/cppio/network/endpoint.cpp:15-15 | `stoul` reads the number behind spaces and a sign, whatever follows it, negates modulo 2^64, and throws if it is 2^64 or more |
| Text.StoulIff | src/cppio/network/endpoint.cpp:15-15 | `stoul` succeeds exactly on the texts that begin, behind spaces and a sign, with a number below 2^64 |
| Encoding.Encode | src/cppio/network/http/encoding.inl:23-42 | The loop gives the coded text of the specification, with a NUL at the end |
| Encoding.Decode | src/cppio/network/http/encoding.inl:44-66 | The loop gives the decoded text of the specification, also for truncated triples |
| Encoding.ByteRoundTrip | src/cppio/network/http/encoding.inl:11-20 | The two digits of every byte combine to that byte, also above 127 where `char` is negative |
| Encoding.DecodeUndoesEncode | src/cppio/network/http/encoding.inl:23-66 | For every byte string, decoding the coded text gives the string and the NUL of the encoder |
| Encoding.EncodeIsPercentCoded | src/cppio/network/http/encoding.inl:28-39 | All that precedes the NUL consists of unreserved characters and lower-case percent triples (sections 2.1 and 2.3 of RFC 3986), and there is no less of it than of the input |
| Encoding.HexPair | src/cppio/network/http/encoding.inl:50-58 | A triple with hexadecimal digits of either case decodes to the byte it denotes |
| Encoding.DecodeTriple | src/cppio/network/http/encoding.inl:50-58 | A triple with hexadecimal digits of either case in front of any text is read as the byte it denotes, and the rest is read as before |
| Encoding.DecodeAnyTriple | src/cppio/network/http/encoding.inl:50-58 | Any other two characters behind a percent sign are used up too, for some one byte |
| Encoding.EncodeOne | src/cppio/network/http/encoding.inl:28-38 | Wherever it stands, an unreserved byte is coded as itself, and any other as a percent sign and its two digits in lower case |
| Encoding.DecodeWithoutTriples | src/cppio/network/http/encoding.inl:50-63 | Without triples, plus signs become spaces, all else stays, and a percent sign with fewer than two characters behind it disappears |
| Headers.InsertKeepsSorted | src/cppio/network/http/header_map.inl:56-59 | The multimap stays in key order and has exactly the new entry more |
| Headers.LessIs | src/cppio/network/http/header_map.inl:56-59 | The order of keys is that of the first difference, a prefix first |
| Headers.ValuesOfInsert | src/cppio/network/http/header_map.inl:56-71 | A new entry comes behind the values its key had, and leaves those of other keys alone |
| Headers.MapIsStable | src/cppio/network/http/header_map.inl:56-71 | After any adds, `get` gives for each key the values added for it, in the order of the adds |
| Headers.HeaderMap.Get | src/cppio/network/http/header_map.inl:61-71 | The loop gives the values of the key in map order |
| Headers.HeaderMap.Serialize | src/cppio/network/http/header_map.inl:73-82 | The loop gives one line for each entry, in map order |
| Headers.HeaderMap.Create | src/cppio/network/http/header_map.inl:10-32 | The parse loop ends, through the wrap-around of `npos + 2` on the last line, and adds what the specification reads, or fails or throws with it |
| Headers.ParseUndoesSerialize | src/cppio/network/http/header_map.inl:10-32 | Reading the text of any well-formed headers gives these headers, in their order |
| Headers.PrintedLines | src/cppio/network/http/header_map.inl:73-82 | The text has one line for each entry: key, colon, space, value |
| Headers.ReadsHeaders | src/cppio/network/http/header_map.inl:10-32 | Any well-formed lines are read into key order, the values of each key in the order of the lines |
| Headers.HeaderMapRoundTrip | src/cppio/network/http/header_map.inl:10-82 | `create(serialize(m))` rebuilds the multimap, equal keys in their order, with or without the final line break |
| Headers.LinesMakeText | src/cppio/network/http/header_map.inl:14-29 | The lines of a text have no break in them and make up the text, but for the break the last one may lack |
| Headers.CreateOutcome | src/cppio/network/http/header_map.inl:10-32 | For every text: `create` succeeds exactly if every line has a colon and none ends at its first one, and then has one header for each line; it throws exactly if the first line that is not good ends at its first colon; else it fails |
| Headers.BadLine | src/cppio/network/http/header_map.inl:19-23 | So behind any well-formed headers, a line without a colon is an error, and a line that ends at its first colon throws |
| Message.FindBlockEnd | src/cppio/network/http/response.inl:20-21 | In a composed message, the first CRLFCRLF is where the last header line ends, whatever the content |
| Message.SplitUndoesCompose | src/cppio/network/http/response.inl:20-27 | The head of a composed message splits into its first line and its header lines, whatever the content; without header lines it does not split |
| Message.ComposedLines | src/cppio/network/http/response.inl:129-132 | The content is what follows the first blank line, and the lines up to it are the first line and one for each header |
| Message.ThreeWords | src/cppio/network/http/response.inl:29-34 | The searches for spaces find the words of a line where they were put |
| Response.Response.Serialize | src/cppio/network/http/response.inl:123-136 | The text is status line, headers with the length of the content, blank line and content; the added header stays in the response |
| Response.Response.Create | src/cppio/network/http/response.inl:16-47 | The imperative parser agrees with the specification on every text, and drops the content |
| Response.ResponseRoundTrip | src/cppio/network/http/response.inl:16-136 | Reading a printed response recovers version, status, and all headers together with the Content-Length of the content, for any content at all |
| Response.CreateResponseOutcome | src/cppio/network/http/response.inl:16-47 | For every text: `create` throws exactly if the head splits, and no number below 2^64 stands in the place of the status or the header lines throw; it succeeds exactly if the head splits, such a number is there, and every header line is good |
| Response.StatusLineReads | src/cppio/network/http/response.inl:27-38 | In any message with well-formed headers, the version is the first word and the status the number that the second word begins with, modulo 2^32, whatever the reason behind it |
| Response.ShortStatusLineReads | src/cppio/network/http/response.inl:29-37 | Without a second space the rest is the status; without any, the whole line is version and status |
| Response.ResponseText | src/cppio/network/http/response.inl:123-136 | The printed lines are version, decimal status and OK, then one for each header, with the decimal length of the content among them; the content follows the first blank line |
| Response.NoHeadersIsInvalid | src/cppio/network/http/response.inl:23-25 | A head without header lines is rejected |
| Request.MethodRoundTrip | src/cppio/network/http/method.hpp:22-88 | Every method is found under its name, and any unknown name counts as GET |
| Request.QueryIsSegments | src/cppio/network/http/request.inl:52-71 | The query loop assigns the ampersand-separated segments in order, a final empty one dropped |
| Request.QueryIsLastWins | src/cppio/network/http/request.inl:52-71 | For any query, a key is present exactly if a segment has it raw up to its first equals sign, with the decoded value of the last such segment |
| Request.SegmentsMakeQuery | src/cppio/network/http/request.inl:53-71 | The segments contain no ampersand and make up the query, but for one at its end |
| Request.SegmentParts | src/cppio/network/http/request.inl:59-63 | The key ends at the first equals sign and the value is all behind it; without one, the whole segment is the key |
| Request.TargetReads | src/cppio/network/http/request.inl:48-73 | The path ends at the first question mark, and what follows is the query |
| Request.QueryOfRequestReads | src/cppio/network/http/request.inl:16-77 | Reading a request with any query gives its method, path, version and headers, and for its parameters the last-wins map of the segments of the query |
| Request.RequestLineReads | src/cppio/network/http/request.inl:27-39 | In any message with well-formed headers, the three words of the first line are method, target and version |
| Request.ShortRequestLineReads | src/cppio/network/http/request.inl:29-38 | Without a second space the whole line counts as the version; without any, as everything |
| Request.Request.Serialize | src/cppio/network/http/request.inl:157-178 | The text is composed of method, path with the query in some order of the parameters, version and headers |
| Request.Request.SerializeQuery | src/cppio/network/http/request.inl:166-169 | The loop prints each parameter once, with nothing in between |
| Request.Request.Create | src/cppio/network/http/request.inl:16-77 | The imperative parser agrees with the specification on every text |
| Request.Request.ReadQuery | src/cppio/network/http/request.inl:48-74 | Moves the query of the path into the parameters |
| Request.CreateRequestOutcome | src/cppio/network/http/request.inl:16-46 | For every text: `create` throws exactly if the head splits and the header lines throw, and succeeds exactly if the head splits and every header line is good |
| Request.QueryReadsOneKey | src/cppio/network/http/request.inl:60-70 | The printed query of any parameters is read back as a single one: its key is the coded form of the first key, its value is the first value with a NUL and all other pairs run together behind it |
| Request.PrintedParametersRead | src/cppio/network/http/request.inl:16-178 | A printed request with parameters reads back with its method, path, version and headers, and with that one parameter |
| Request.RequestRoundTripIff | src/cppio/network/http/request.inl:16-178 | For printable requests, `create(serialize(r))` equals `r` if and only if `r` has a header and no parameters |
| Ip.V4ToString | src/cppio/network/ip.cpp:28-38 | The text is the four octets joined by dots |
| Ip.V4RoundTrip | src/cppio/network/ip.cpp:6-38 | Reading a printed IPv4 address gives the address, for all 32-bit addresses |
| Ip.V4Iff | src/cppio/network/ip.cpp:6-38 | The printed pieces are the decimal bytes, highest first, and no other text is read as that address |
| Ip.FindZeros | src/cppio/network/ip.cpp:91-110 | The nested loops compute the run that the specification of the search gives |
| Ip.V6ToString | src/cppio/network/ip.cpp:85-133 | The output loop prints the address around that run |
| Ip.ZeroRunIsLeftmostLongest | src/cppio/network/ip.cpp:91-110 | The search finds a run of zeros, none is longer, and none as long starts further left |
| Ip.V6RoundTrip | src/cppio/network/ip.cpp:40-133 | For all eight-word addresses, `parse` reads back what `to_string` printed, and also without the brackets |
| Ip.V6Canonical | src/cppio/network/ip.cpp:85-133 | The form of RFC 5952 (sections 4.1, 4.2.1 to 4.2.3, 4.3 and 6): `::` exactly once if there are two adjacent zero words and else never, for the leftmost longest run as a whole; lower-case groups without leading zeros; brackets |
| Ip.PlainPieces | src/cppio/network/ip.cpp:112-128 | The groups between the colons are the words in hexadecimal, in their order |
| Ip.MappedV4 | src/cppio/network/ip.cpp:56-59 | A dotted tail is read as two words, the higher first |
| Ip.V6FromBytes | src/cppio/network/ip.cpp:64-71 | The words are those whose bytes in network order are the given ones |
| Ip.V4Fill | src/cppio/network/ip.cpp:22-26 | Sets the family and the four bytes of the address in network order, and nothing else |
| Ip.V4FromBytes | src/cppio/network/endpoint.cpp:57-58 | The address is the one whose bytes in network order are the given ones |
| Ip.V6Fill | src/cppio/network/ip.cpp:73-83 | Sets the family and the sixteen bytes of the address in network order, and nothing else |
| Ip.BytesDetermineWords | src/cppio/network/ip.cpp:64-83 | Different addresses have different bytes |
| Ip.BytesAre | src/cppio/network/ip.cpp:77-82 | The higher byte of each word comes first |
| Endpoint.Parse | src/cppio/network/endpoint.cpp:10-45 | The code, with the bracket blanked out in place, agrees with the specification on every text |
| Endpoint.PortIsExact | src/cppio/network/endpoint.cpp:15-44 | With a number behind the last colon: if it is 65536 or more, the whole text is read as an address with port 0; else an address in front of the colon, IPv6 in brackets or IPv4, is read with exactly that port; failing that, the whole text again |
| Endpoint.NoPortIsRead | src/cppio/network/endpoint.cpp:36-44 | A text without a colon, or closed by a bracket, is read as an address with port 0 |
| Endpoint.LargePortIsBad | src/cppio/network/endpoint.cpp:16-44 | An IPv4 address with a port of 65536 or more is a bad format, for every such number |
| Endpoint.EndpointRoundTrip | src/cppio/network/endpoint.cpp:10-132 | `parse(to_string(e))` equals `e` for every IPv4 or IPv6 address and every port, zero included |
| Endpoint.EndpointTextIs | src/cppio/network/endpoint.cpp:121-132 | The port follows the address behind a colon, in decimal, exactly if it is not zero |
| Endpoint.ThrowsExactly | src/cppio/network/endpoint.cpp:12-15 | An exception leaves `parse` exactly if no number below 2^64 follows the last colon of a text that does not end in a bracket |
| Endpoint.UndefinedExactly | src/cppio/network/endpoint.cpp:12-22 | What `parse` does is undefined exactly if its text is a colon, behind which `stoul` reads a number below 65536, and does not end in a bracket |
| Endpoint.BareV6Iff | src/cppio/network/endpoint.cpp:12-38 | A printed IPv6 address without its brackets is read correctly if a decimal digit follows its last colon, and `parse` throws otherwise |
| Endpoint.BadTexts | src/cppio/network/endpoint.cpp:15-20 | A text on which `parse` throws, and one on which it is undefined |
| Endpoint.Fill | src/cppio/network/endpoint.cpp:104-119 | The socket address has the family, the address and the port of the endpoint, and scope 0 for IPv6 |
| Endpoint.FromStorage | src/cppio/network/endpoint.cpp:53-67 | The endpoint constructed from a socket address is the only one with that family, address and port, so it is the one that filled it; every other family counts as IPv6 |
| Stream.StepKeepsInv | src/cppio/network/posix/tcp_socket.cpp:62-118 | Every answer of the kernel to either end keeps what was handed over equal to the counted part of the buffer, and what was received equal to the next part of the stream |
| Stream.StreamIntegrity | src/cppio/network/posix/tcp_socket.cpp:62-118 | For every interleaving of partial sends and receives: nothing lost, repeated or reordered; if both ends succeed on an empty pipe with the same size, the buffers are equal |
| Stream.WriterOutcome | src/cppio/network/posix/tcp_socket.cpp:90-118 | The answers a writer can get are transfers and completions in turn, and nothing behind a failure or the last byte; an error that asks to try again is no failure |
| Stream.Write | src/cppio/network/posix/tcp_socket.cpp:90-118 | For any answers of the kernel: exactly the counted part of the buffer is handed over, which is what the positive results add up to; closed exactly if some answer is an error other than "try again" or a failed completion; done exactly if all was sent; else waiting exactly after a transfer |
| Stream.ReaderOutcome | src/cppio/network/posix/tcp_socket.cpp:62-88 | The answers a reader can get are transfers, with a completion exactly behind each transfer of nothing, and nothing behind a failure or the last byte |
| Stream.ReadExactly | src/cppio/network/tcp_socket.cpp:26-39 | With the loop of `read` inside, for any answers of the kernel: the buffer is exactly what was taken out of the pipe, which is what the positive results add up to; closed exactly if some answer is an error other than "try again" or a failed completion; done, with value 0, exactly if it is full; else waiting exactly after a transfer of nothing |

## Left out

* Several workers and wake-ups: that a wake-up is only delivered when no worker holds the task is an assumption of `Ownership` and `Workers`, as described above; what the code does without it is not modelled beyond the second worker that enters `one_step`.
- Reactor.Reactor.Add: asks for a coroutine that keeps the discipline of the awaitables, which the code does not ask; without it ownership is lost, as `Ownership.GuardIsExact` shows.
- Reactor.Reactor.Register: one descriptor has one registration at a time, for reading or for writing, and a later one replaces it; that `epoll_ctl` refuses is the answer of the world to the coroutine.
- Reactor.Reactor.Poll: the clock is an integer that does not go back; the wake-ups of one poll are applied after all due entries were taken off the pool, which one thread cannot distinguish.
- Reactor.Reactor.StepTask: steps the coroutine as a value; class `Store` shows that the heap machine does the same, but the reactor does not hold its objects. What a coroutine does to the reactor during a step is applied in its order right after the step; with one thread nothing else can come in between.
* In `Workers`, where a step leads is fixed when it begins, as the world of a task answers from what the task has done; when it is stored is not, nor when each thing on the way is done. Poll timeouts and the order of wake-ups are those of class `Reactor` only.
- Reactor.Reactor.Deliver: one poll may deliver any number of completions, where the code asks for ten at a time; the success flag of a completion is part of the outcome that the coroutine sees.
- Reactor.Reactor.RunRounds: a finite stretch of `run()`; that completions arrive at all is up to the environment. Restoring the current reactor and `notify_one` are not modelled.
* Coroutine bodies are finite programs: a loop with a bound that is not known beforehand appears as its unrolling. Values are integers; `await_resume` copies where the code moves.
* Destruction of frames, exceptions inside coroutines, `future`, `m_notifier`, `std::promise` and the start of worker threads.
* Memory orders: every store to the state of a task is a step of its own, and steps interleave.
- Stream.ReadExactly: the kernel's answers are a finite sequence, so that the method may end while still running or waiting.
* Lengths are unbounded; that a size fits 64 bits, and that `npos` is no position, is taken for granted.
* The character functions (`isalnum`, `isdigit`, `tolower`, spaces for `stoul`) are those of the C locale.
- Endpoint.Parse: the text given to `parse` is taken to be followed by a NUL, as `stoul` reads it through `data()`; otherwise it would read behind the view.
- Endpoint.Fill: the fields of a socket address that the code touches; the port is given by its value, and no fields overlap.
* The order of an unordered map is any order, so `Request.Request.Serialize` gives some enumeration of the keys.
* `inet_pton` follows its specification; an IPv4 tail in an IPv6 text is accepted, which the printer never produces.
* UDP sockets, listeners, `connect`, the resolver, error codes, the Windows files, copy and move operators, plain getters and setters, and the empty `std::to_string` stubs would only add easy members.
