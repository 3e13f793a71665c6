# A verified model of muduo

muduo is a C++ network library built around an event loop, with a base library (queues, thread pool,
asynchronous logging, dates) and example servers.  This project models the parts of it whose correctness
is hardest to see by reading them, and proves what they promise, for every input and every run.  Run
`dafny verify dfyconfig.toml` in this directory to check all of it.

| file | models |
|---|---|
| `DancingLinks.dfy` | the toroidal matrix of the Sudoku solver: rings, cover and uncover, exact covers |
| `SudokuRules.dfy` | the rules of Sudoku, and their equivalence with exact covers of 324 named constraints |
| `TorusBuilding.dfy` | how the matrix grows, column by column and node by node |
| `SudokuSolver.dfy` | the solver itself, on its array of nodes, from the 81 characters to the answer |
| `BlockingQueue.dfy` | `BoundedBlockingQueue` and the work queue of `ThreadPool`, as a monitor with two condition variables |
| `EventLoop.dfy` | the functor queue of `EventLoop`, the eventfd, `quit()` and the polling thread |
| `AsyncLogging.dfy` | the double-buffered logger: appending threads against the logging thread |
| `TimerQueue.dfy` | the timer queue: two indexes, cancelling, callbacks that add and cancel, the timerfd |
| `Pollers.dfy` | the bookkeeping of `PollPoller` and `EPollPoller` against one map of interests |
| `MemcacheStore.dfy` | the sharded item table of the memcached server and its version numbers, one operation at a time |
| `MemcacheThreads.dfy` | the same under concurrency: a lock per shard, one counter for all |
| `MemcacheSession.dfy` | a client session: the byte stream, the text protocol, the replies |
| `MemcacheRequests.dfy` | which request lines bring that session down, and which leave output behind |
| `MemcacheRoundTrip.dfy` | what a client of that server gets back for a `set` and a `get`, and where that fails |
| `MemcacheProtocol.dfy` | the answers to every sequence of requests, against a plain map |
| `Buffer.dfy` | `Buffer`, on an array |
| `ProtobufCodec.dfy` | `ProtobufCodecLite`, on that buffer |
| `Date.dfy` | Julian day numbers and Gregorian dates, in 32 bits |
| `SudokuStat.dfy` | the sliding statistics of the Sudoku server |
| `IdleWheel.dfy` | the wheel of buckets that finds idle connections |

Code that updates objects in place is modelled by classes, arrays and loops.  Each method is proved to
compute a function of the old state, and the properties are proved of these functions.  Code whose
difficulty is concurrency (the monitor, the event loop, the logger) is modelled as a state machine with
one step per critical section or system call; a run is any sequence of steps of any threads, and the
results are about every state of every run.

## What does not hold, and when it does

Some properties one would expect are false of the code.  The model keeps the code as it is; each is
stated with the run or the input for which it fails, and with the condition under which it holds.

* A functor that the loop thread queues before `loop()` gets no wakeup, and the loop may sleep with it
  pending (`EventLoop.UnannouncedIsLost`).  Otherwise no wakeup is lost (`EventLoop.NoLostWakeup`).
* A `quit()` before `loop()` clears the flag is lost, and the loop may sleep for ever
  (`EventLoop.EarlyQuitIsLost`).  The loop exits if and only if the flag was set after that
  (`EventLoop.ExitsIffQuit`).
* A `cancel` that runs before the queued `addTimerInLoop` of its timer is forgotten
  (`TimerQueue.CancelBeforeAddIsLost`, `TimerQueue.PendingIsNotCancelled`).  Every other cancel is final
  (`TimerQueue.CancelIsFinal`).
* The logger ignores a line of 4,000,000 bytes or more, and no other (`AsyncLogging.LongLinesAreIgnored`).
  If more than 25 buffers pile up, the lines after the first two are lost (`AsyncLogging.PileIsLost`).  When
  the logger stops, the lines accepted since its last swap are lost (`AsyncLogging.StopLosesLine`).  These
  are all: the file of a stopped logger is complete if and only if nothing was dropped and nothing was
  accepted since the last swap (`AsyncLogging.StoppedLog`).
* The memcached session answers a long line or not, depending on how it was cut
  (`MemcacheRoundTrip.CutOffMatters`).  The cuts make no difference if and only if no message ends inside a
  line of which more than 1024 bytes have come (`MemcacheSession.CutsMatterIff`).
* `get noreply` is read as `get` without a key, because a final ` noreply` is cut off every request line
  (`MemcacheRoundTrip.GetNoreply`).  Every other key is found again (`MemcacheRoundTrip.SetThenGet`).
* A `get` that is refused for a key that is too long leaves what it has found so far in the output
  buffer, and the next `get` sends it (`MemcacheRoundTrip.LeftOverIsSent`).  The answer to a `get` is the
  value alone if and only if nothing was left (`MemcacheRoundTrip.SetThenGet`), and something is left if and
  only if a `get` was refused after a key that was found and none was answered since
  (`MemcacheRequests.MessageLeavesOutput`).
* Some requests end in a failed assertion or in undefined behaviour, which the model calls `crashed`: an
  update or delete without a key, an update with a negative or nearly 2^31 byte count, a line of 2^31 bytes
  or more (`MemcacheRoundTrip.CrashingLines`, `MemcacheRequests.CrashIffFatal`), and an append or prepend that
  makes an item of 2^31 bytes or more (`MemcacheRoundTrip.GrowingValueCrashes`).  A message brings the server
  down if and only if it holds one of these (`MemcacheRequests.MessageCrashesIffFatal`).
* `Date::weekDay` is negative before day -1, unless it is a Sunday; from that day on it is the day of the week
  (`Date.WeekDayIff`).
* `ProtobufCodecLite` sends messages over 64 MiB, but does not accept them
  (`ProtobufCodec.FrontOfFrame`).

## Model

| member | source | states |
|---|---|---|
| `SudokuSolver.SolveSudoku` | muduo/examples/sudoku/sudoku.cc:263-291 | for every 81-character puzzle the answer is a grid that keeps the clues and has 1..9 once in every row, column and box, or NoSolution, and NoSolution exactly if there is no such grid |
| `SudokuSolver.SolveBoard` | muduo/examples/sudoku/sudoku.cc:279-289 | laying out the board and searching leaves a solution on it, or none exists |
| `SudokuSolver.Solver.constructor` | muduo/examples/sudoku/sudoku.cc:33-93 | the matrix built is a well-formed torus of at most `kMaxNodes` nodes that encodes the constraints the clues leave open |
| `SudokuSolver.Solver.Solve` | muduo/examples/sudoku/sudoku.cc:95-133 | terminates on every well-formed torus; failure leaves every link, size, the stack and the board as they were and means that no set of rows covers the live columns exactly; success leaves an exact cover and writes all its rows |
| `SudokuSolver.Solver.TryRow` | muduo/examples/sudoku/sudoku.cc:119-129 | one row of the covered column: undone exactly if it leads nowhere, and then no exact cover uses it |
| `SudokuSolver.Solver.WriteBoard` | muduo/examples/sudoku/sudoku.cc:97-114 | the board shows the digit of every chosen row |
| `SudokuSolver.Solver.GetMinColumn` | muduo/examples/sudoku/sudoku.cc:201-216 | a live column, and a smallest one unless its size is at most one |
| `SudokuSolver.Solver.Cover` | muduo/examples/sudoku/sudoku.cc:218-229 | the in-place walk over the rings performs exactly the planned hiding of the column |
| `SudokuSolver.Solver.Uncover` | muduo/examples/sudoku/sudoku.cc:231-242 | undoes a cover: every link and size is what it was before |
| `SudokuSolver.Solver.CoverMates` | muduo/examples/sudoku/sudoku.cc:120-122 | covers the columns of the other nodes of a row, one after the other |
| `SudokuSolver.Solver.UncoverMates` | muduo/examples/sudoku/sudoku.cc:127-129 | undoes those nested covers in the opposite order, completely |
| `SudokuSolver.Solver.PutLeft` | muduo/examples/sudoku/sudoku.cc:244-250 | the array after inserting a node to the left of another |
| `SudokuSolver.Solver.PutUp` | muduo/examples/sudoku/sudoku.cc:252-260 | the array after appending a node at the bottom of a column, and the new size |
| `SudokuSolver.Solver.AppendColumn` | muduo/examples/sudoku/sudoku.cc:158-165 | keeps the growing matrix in shape and adds one empty column of that name |
| `SudokuSolver.Solver.AddRow` | muduo/examples/sudoku/sudoku.cc:80-90 | keeps the growing matrix in shape and adds one row of four nodes in the columns named |
| `SudokuRules.CoverIsSolution` | muduo/examples/sudoku/sudoku.cc:33-93 | every exact cover of the open constraints is a solution, whatever the clues, so duplicate clues cannot be covered |
| `SudokuRules.SolutionIsCover` | muduo/examples/sudoku/sudoku.cc:33-93 | every solution is an exact cover |
| `DancingLinks.HideThenUnhide` | muduo/examples/sudoku/sudoku.cc:218-242 | putting a hidden node back restores the whole array |
| `DancingLinks.UnlinkThenRelink` | muduo/examples/sudoku/sudoku.cc:218-242 | putting an unlinked header back restores the whole array |
| `DancingLinks.CoverKeepsWellFormed` | muduo/examples/sudoku/sudoku.cc:218-229 | covering a live column of a well-formed torus gives a well-formed torus of the other columns: rings, sizes equal to ring lengths, rows present just if they meet no covered column |
| `DancingLinks.CoverLiveNodes` | muduo/examples/sudoku/sudoku.cc:218-229 | a row stays in the other rings exactly when it has no node in the covered column |
| `DancingLinks.MatesJourney` | muduo/examples/sudoku/sudoku.cc:120-122 | the columns of a live row can be covered one after the other, each while it is live |
| `DancingLinks.ExactCoverMinus` | muduo/examples/sudoku/sudoku.cc:118-130 | an exact cover without one of its rows is an exact cover of the columns that row leaves |
| `DancingLinks.ExactCoverPlus` | muduo/examples/sudoku/sudoku.cc:118-130 | and the other way round |
| `DancingLinks.NoRowNoCover` | muduo/examples/sudoku/sudoku.cc:118-132 | if no node of a column leads to a cover there is none |
| `TorusBuilding.GrowColumn` | muduo/examples/sudoku/sudoku.cc:144-165 | appending a header keeps the matrix in shape |
| `TorusBuilding.GrowNode` | muduo/examples/sudoku/sudoku.cc:167-184 | appending a node to a column keeps the matrix in shape |
| `TorusBuilding.RowAdded` | muduo/examples/sudoku/sudoku.cc:80-90 | four new nodes, joined, are a row of the matrix |
| `TorusBuilding.GrownIsWellFormed` | muduo/examples/sudoku/sudoku.cc:33-93 | what was built is a well-formed torus |
| `BlockingQueue.RunInv` | muduo/muduo/base/BoundedBlockingQueue.h:31-55 | the invariant of both monitors in every state of every run with any threads and spurious wakeups |
| `BlockingQueue.Fifo` | muduo/muduo/base/BoundedBlockingQueue.h:31-55 | what was taken is a prefix of what was put, the queue is the rest, and the capacity is kept |
| `BlockingQueue.TakesReturnPuts` | muduo/muduo/base/BoundedBlockingQueue.h:31-55 | as the callers see it, in every run: the values that `take` has returned, in the order of the returns, and the one in hand are the first items pushed; what a thread has pushed are the arguments of its own calls of `put`, in order and once each, but for the call it is in; every return answers the open call of its thread |
| `BlockingQueue.WaitersAreBalanced` | muduo/muduo/base/BoundedBlockingQueue.h:31-55 | an unsignalled consumer means no more items than consumers signalled and not resumed; the same for producers and room |
| `BlockingQueue.NoLostWakeup` | muduo/muduo/base/BoundedBlockingQueue.h:31-55 | nobody waits for something that is there, unless another thread can go on |
| `BlockingQueue.NoDeadlock` | muduo/muduo/base/ThreadPool.cc:71-138 | with room for one item, or in a running pool, if nobody can go on then all who are inside wait for the same thing, which is missing |
| `BlockingQueue.BusyCanProgress` | muduo/muduo/base/ThreadPool.cc:71-138 | whoever is inside and does not wait can go on, or the holder of the mutex can |
| `EventLoop.InOrderOnce` | muduo/muduo/net/EventLoop.cc:189-200 | in every state of every run: run, rest of the batch and pending are together the functors queued, in order |
| `EventLoop.NoLostWakeup` | muduo/muduo/net/EventLoop.cc:127-162 | if what was queued before `loop()` is announced or about to be, the loop in poll with a functor pending or with `quit_` set has a readable eventfd, or a thread on its way to write it |
| `EventLoop.UnannouncedIsLost` | muduo/muduo/net/EventLoop.cc:189-200 | without that condition on the start there is a run that sleeps with a functor pending |
| `EventLoop.EarlyQuitIsLost` | muduo/muduo/net/EventLoop.cc:127-174 | a run in which a `quit()` before the start of `loop()` leaves it asleep with nobody about to wake it |
| `EventLoop.ExitsIffQuit` | muduo/muduo/net/EventLoop.cc:127-174 | at every test the loop exits if and only if `quit_` was set since `loop()` cleared it |
| `EventLoop.BatchIsFixed` | muduo/muduo/net/EventLoop.cc:332-350 | a batch is what was pending at the swap, however many functors it queues, and it ends when all of it has run |
| `EventLoop.StepWake` | muduo/muduo/net/EventLoop.cc:309-330 | every step of any thread keeps the wakeup invariant |
| `AsyncLogging.AssertsHold` | muduo/muduo/base/AsyncLogging.cc:64-126 | every assert of the logging thread holds in every run, and an empty `nextBuffer_` means that `buffers_` is not empty |
| `AsyncLogging.LogIsComplete` | muduo/muduo/base/AsyncLogging.cc:29-126 | file, rest of the batch, `buffers_` and current buffer are the accepted lines, whole and in order, while no batch exceeds 25 buffers |
| `AsyncLogging.LossIsExact` | muduo/muduo/base/AsyncLogging.cc:85-102 | in any run, what is lost of the lines the logging thread has taken is what it drops, in order, and the file is the rest |
| `AsyncLogging.PileIsLost` | muduo/muduo/base/AsyncLogging.cc:87-96 | for every pile of more than 25 buffers there is a run that writes the lines of the first two and loses all others |
| `AsyncLogging.StopLosesLine` | muduo/muduo/base/AsyncLogging.cc:64-127 | for every line there is a run without drops in which it is accepted and never written |
| `AsyncLogging.StoppedLog` | muduo/muduo/base/AsyncLogging.cc:64-127 | in every run, once the thread has stopped and ever after, what is not written is what was dropped and what was accepted since the last swap; the file is complete if and only if both are nothing |
| `AsyncLogging.LongLinesAreIgnored` | muduo/muduo/base/LogStream.h:38-46 | an append adds its line to those held if and only if it is shorter than a buffer |
| `AsyncLogging.OneOwner` | muduo/muduo/base/AsyncLogging.cc:64-126 | no buffer is in two places, so none is shared by the two sides |
| `AsyncLogging.AppendConserves` | muduo/muduo/base/AsyncLogging.cc:29-51 | whichever buffer an append ends in, the accepted lines stay what was dealt with, what is unwritten and what the buffers hold, in order |
| `AsyncLogging.FixedBuffer.Append` | muduo/muduo/base/LogStream.h:38-46 | copies the whole line after the lines before it, or nothing, and nothing exactly if it is not shorter than the space left |
| `AsyncLogging.FixedBuffer.Clear` | muduo/muduo/base/LogStream.h:56 | the buffer is empty again, without touching its bytes |
| `TimerQueue.IndexesAgree` | muduo/muduo/net/TimerQueue.cc:260-287 | in every run the two indexes hold the same timers, sorted, under their current expirations |
| `TimerQueue.CallsAreLive` | muduo/muduo/net/TimerQueue.cc:184-226 | `handleRead` takes out exactly the timers due, sorted, and each is still allocated when it is called |
| `TimerQueue.EachDueTimerOnce` | muduo/muduo/net/TimerQueue.cc:184-204 | in every run, the callbacks of a finished round, for ever after, are those of the timers in the queue and due when it began, each once, in order of expiration, and no others |
| `TimerQueue.RestartsIff` | muduo/muduo/net/TimerQueue.cc:228-247 | at the end of its round a timer that was due starts again, `interval` after the time of the round, if and only if it repeats and no cancel has named it since the round began; otherwise it is freed; all others stay as they are |
| `TimerQueue.CancelIsFinal` | muduo/muduo/net/TimerQueue.cc:164-182 | after the cancel of a timer that was added, its callback runs at most in the rest of the current round |
| `TimerQueue.PendingIsNotCancelled` | muduo/muduo/net/TimerQueue.cc:164-182 | a cancel of a timer not yet added changes nothing about it |
| `TimerQueue.CancelBeforeAddIsLost` | muduo/muduo/net/TimerQueue.cc:164-182 | a run in which such a timer fires after its cancel |
| `TimerQueue.FreedOnce` | muduo/muduo/net/TimerQueue.cc:228-247 | whatever `cancelInLoop` or `reset` frees is allocated at that moment |
| `TimerQueue.StaleIdIsHarmless` | muduo/muduo/net/TimerQueue.cc:164-182 | an id whose address was reused leaves the timer that lives there now as it is |
| `TimerQueue.AlwaysArmed` | muduo/muduo/net/TimerQueue.cc:249-257 | outside `handleRead` a non-empty queue has its alarm set, with a positive delay, no later than the earliest expiration up to 100 microseconds |
| `TimerQueue.AlarmIsForATimer` | muduo/muduo/net/TimerQueue.cc:71-85 | every alarm set in a run is for the expiration of the timer that was then the earliest, or for 100 microseconds later than that moment |
| `TimerQueue.HowMuchTimeFromNow` | muduo/muduo/net/TimerQueue.cc:43-57 | a well-formed timespec worth the delay or 100 microseconds, whichever is longer |
| `TimerQueue.TimerQueue.Insert` | muduo/muduo/net/TimerQueue.cc:260-287 | adds to both indexes, keeps them in agreement, and tells whether the earliest expiration changed |
| `TimerQueue.TimerQueue.AddTimerInLoop` | muduo/muduo/net/TimerQueue.cc:153-162 | inserts, and sets the alarm just if the new timer is the earliest |
| `TimerQueue.TimerQueue.CancelInLoop` | muduo/muduo/net/TimerQueue.cc:164-182 | removes and frees an active timer; remembers an id cancelled from a callback |
| `TimerQueue.TimerQueue.GetExpired` | muduo/muduo/net/TimerQueue.cc:206-226 | removes exactly the due timers from both indexes, in order |
| `TimerQueue.TimerQueue.Reset` | muduo/muduo/net/TimerQueue.cc:228-258 | restarts the repeating timers that were not cancelled, frees the others, and sets the alarm for the earliest |
| `TimerQueue.TimerQueue.ResetTimer` | muduo/muduo/net/Timer.cc:16-26 | one expired timer gets its next expiration or is freed |
| `Pollers.SameInterest` | muduo/muduo/net/poller/PollPoller.cc:82-159 | after every legal sequence of calls both pollers watch the same fds for the same non-empty events, those asked for, on behalf of the channels that asked |
| `Pollers.RunOk` | muduo/muduo/net/poller/EPollPoller.cc:111-174 | after every legal sequence of calls both bookkeepings are consistent with the channels' requests |
| `Pollers.PollUpdateOk` | muduo/muduo/net/poller/PollPoller.cc:82-126 | keeps channels and slots in bijection, with ignored slots at -fd-1 |
| `Pollers.PollRemoveOk` | muduo/muduo/net/poller/PollPoller.cc:128-159 | keeps that bijection through the swap with the last slot |
| `Pollers.EPollUpdateOk` | muduo/muduo/net/poller/EPollPoller.cc:111-153 | the kernel set is the map of requested events, and the call it makes cannot fail |
| `Pollers.EPollRemoveOk` | muduo/muduo/net/poller/EPollPoller.cc:155-174 | the same for removal |
| `Pollers.CtlNeverFails` | muduo/muduo/net/poller/EPollPoller.cc:176-196 | in every legal run ADD is asked for absent fds only, MOD and DEL for present ones only |
| `Pollers.PollPoller.UpdateChannel` | muduo/muduo/net/poller/PollPoller.cc:82-126 | the fields after the update, with the source's asserts, are those of the specification |
| `Pollers.PollPoller.RemoveChannel` | muduo/muduo/net/poller/PollPoller.cc:128-159 | the same for the removal |
| `Pollers.PollPoller.FillActiveChannels` | muduo/muduo/net/poller/PollPoller.cc:59-79 | reports the channels of all marked slots, in order, although it stops counting early |
| `Pollers.EPollPoller.UpdateChannel` | muduo/muduo/net/poller/EPollPoller.cc:111-153 | the channel map, states and kernel set after the update are those of the specification |
| `Pollers.EPollPoller.RemoveChannel` | muduo/muduo/net/poller/EPollPoller.cc:155-174 | the same for the removal |
| `MemcacheStore.StoredOk` | muduo/examples/memcached/server/MemcacheServer.cc:48-142 | all six policies keep the table in order: items under their own key, ending in CRLF, with distinct versions already issued |
| `MemcacheStore.NewItemEnds` | muduo/examples/memcached/server/MemcacheServer.cc:92-117 | appending to and prepending to a value gives a value that ends in CRLF |
| `MemcacheStore.MemcacheServer.StoreItem` | muduo/examples/memcached/server/MemcacheServer.cc:48-142 | on 4096 shards and any hash, does to the one map what the policy means, and tells whether it stored and whether the key existed; goes down if and only if the joined item is too long for an `int` |
| `MemcacheStore.MemcacheServer.Joined` | muduo/examples/memcached/server/MemcacheServer.cc:96-114 | the item that append and prepend store, or a crash if its length does not fit an `int` |
| `MemcacheStore.MemcacheServer.GetItem` | muduo/examples/memcached/server/MemcacheServer.cc:144-151 | looks up in the one map |
| `MemcacheStore.MemcacheServer.DeleteItem` | muduo/examples/memcached/server/MemcacheServer.cc:153-159 | removes from the one map and tells whether the key was there |
| `MemcacheThreads.Linearizable` | muduo/examples/memcached/server/MemcacheServer.cc:48-159 | in every interleaving of threads that lock a shard, take a number, write and unlock, the answers given are those of the same operations done one after the other on one map, which the shards hold except for writes in flight |
| `MemcacheThreads.EffectInside` | muduo/examples/memcached/server/MemcacheServer.cc:48-159 | each operation takes its effect on that map, with its own answer, inside its own critical section |
| `MemcacheThreads.NumberedCanWrite` | muduo/examples/memcached/server/MemcacheServer.cc:56-135 | a thread that has taken a number can write, and nothing it decided before has changed |
| `MemcacheThreads.VersionsAreDistinct` | muduo/examples/memcached/server/MemcacheServer.cc:56-135 | in every interleaving all versions, stored or in flight, are distinct |
| `MemcacheThreads.VersionIsUnique` | muduo/examples/memcached/server/MemcacheServer.cc:56-135 | a version names one item under one key for ever, at any two moments of a run |
| `MemcacheThreads.StoredItemsAreFine` | muduo/examples/memcached/server/MemcacheServer.cc:48-159 | in every interleaving every stored item is under its own key, ends in CRLF and has a version already issued |
| `MemcacheThreads.CasSucceedsIffUntouched` | muduo/examples/memcached/server/MemcacheServer.cc:123-135 | in every interleaving, a compare-and-swap with a version that some thread read stores if and only if nothing was stored or deleted under the key between the read and the decision |
| `MemcacheSession.FedJoin` | muduo/examples/memcached/server/Session.cc:73-199 | two pieces in two calls leave the same replies, table, session and buffer as both in one |
| `MemcacheSession.AnyPieces` | muduo/examples/memcached/server/Session.cc:73-199 | so does every way of cutting a stream |
| `MemcacheSession.CutsMatterIff` | muduo/examples/memcached/server/Session.cc:108-117 | with the limit on lines, that holds after every piece if and only if no piece ends inside an over-long line |
| `MemcacheSession.TurnOk` | muduo/examples/memcached/server/Session.cc:80-132 | every turn of the loop keeps the field invariants of each state, which are the asserts of the three handlers, and consumes input |
| `MemcacheSession.RequestOk` | muduo/examples/memcached/server/Session.cc:201-315 | every request line leaves the fields as the next state demands |
| `MemcacheSession.ReceiveOk` | muduo/examples/memcached/server/Session.cc:136-181 | so does every part of a value |
| `MemcacheSession.FindCRLFIs` | muduo/muduo/net/Buffer.h:89-94 | finds the first CRLF, or there is none |
| `MemcacheSession.ReceiveTwice` | muduo/examples/memcached/server/Item.cc:33-39 | a value received in two parts is the value received at once |
| `MemcacheSession.Session.OnMessage` | muduo/examples/memcached/server/Session.cc:73-134 | the loop over the buffer terminates and does what the specification of the stream says, to the session and to the shards |
| `MemcacheSession.Session.ReceiveSome` | muduo/examples/memcached/server/Session.cc:136-146 | takes what is there, up to what is needed |
| `MemcacheSession.Session.StoreReceived` | muduo/examples/memcached/server/Session.cc:148-179 | stores a complete value or refuses it, answers, and is ready for a command |
| `MemcacheSession.Session.DiscardSome` | muduo/examples/memcached/server/Session.cc:183-199 | skips what is there, up to what is to be skipped |
| `MemcacheSession.Session.ProcessRequest` | muduo/examples/memcached/server/Session.cc:201-306 | a request line has the effect of the specification, `noreply` included |
| `MemcacheSession.Session.GetKeys` | muduo/examples/memcached/server/Session.cc:237-269 | outputs the items of the keys in order, up to the first key that is too long |
| `MemcacheSession.Session.ParseUpdate` | muduo/examples/memcached/server/Session.cc:342-391 | what the arguments of an update ask for, with the casts of the source |
| `MemcacheSession.Session.DoUpdate` | muduo/examples/memcached/server/Session.cc:325-394 | begins to receive or to discard a value, or refuses the line |
| `MemcacheSession.Session.DoDelete` | muduo/examples/memcached/server/Session.cc:396-423 | deletes and answers, or refuses the line |
| `MemcacheSession.Session.ResetRequest` | muduo/examples/memcached/server/Session.cc:308-315 | clears what belongs to the request and nothing else |
| `MemcacheRequests.CrashIffFatal` | muduo/examples/memcached/server/Session.cc:100-102 | a request line brings the server down if and only if it is 2^31 bytes long or more, an update or delete without a key, or an accepted update with a byte count negative or at least 2^31 - 2 in 32 bits |
| `MemcacheRequests.MessageCrashesIffFatal` | muduo/examples/memcached/server/Session.cc:73-134 | a message does if and only if such a line is read in it, or a value is completed whose append or prepend makes the item too long for an `int` |
| `MemcacheRequests.RequestLeaves` | muduo/examples/memcached/server/Session.cc:237-269 | which request lines leave the output buffer empty, from their tokens and the table |
| `MemcacheRequests.MessageLeavesOutput` | muduo/examples/memcached/server/Session.cc:73-134 | after a message output is left behind if and only if a `get` was refused after a key that was found and none was answered since |
| `MemcacheRoundTrip.SetThenGet` | muduo/examples/memcached/server/Session.cc:73-394 | for every key but one, all flags and times and every value up to 1 MiB, in any pieces and with the limit on lines: `set` and `get` answer STORED and the value, byte for byte, after what was left behind, so the value alone if and only if nothing was |
| `MemcacheRoundTrip.GetNoreply` | muduo/examples/memcached/server/Session.cc:210-219 | the key for which that fails |
| `MemcacheRoundTrip.LeftOverIsSent` | muduo/examples/memcached/server/Session.cc:242-268 | from a session just opened, a `get` of a missing key is answered with the item that a refused `get` left behind |
| `MemcacheRoundTrip.CrashingLines` | muduo/examples/memcached/server/Session.cc:342-400 | four request lines that bring the server down |
| `MemcacheRoundTrip.GrowingValueCrashes` | muduo/examples/memcached/server/MemcacheServer.cc:96-102 | from a session just opened, a `set` and enough appends bring the server down although no request line is fatal; 1 MiB and 2047 appends are enough |
| `MemcacheRoundTrip.CutOffMatters` | muduo/examples/memcached/server/Session.cc:108-117 | the same 1027 bytes are answered in one message and not in two |
| `MemcacheRoundTrip.LineIs` | muduo/examples/memcached/server/Session.cc:210-230 | a line of plain tokens is read as those tokens, unless it ends in `noreply` |
| `MemcacheRoundTrip.TokensOfSpaced` | muduo/examples/memcached/server/Session.cc:19-42 | the tokenizer undoes joining with spaces |
| `MemcacheRoundTrip.NumberIsRead` | muduo/examples/memcached/server/Session.cc:52-66 | reading undoes writing of decimal numbers |
| `MemcacheProtocol.ServerIsMap` | muduo/examples/memcached/server/Session.cc:73-423 | for every sequence of requests that can be sent and does not break the server, in any pieces and with the limit on lines: the server sends, byte for byte, what a map from keys to flags, data and versions answers, counts the requests, and what can be seen of its table is in the map; the requests are the six updates with values of any length and right or wrong ends, faulty updates, `delete` and unknown commands, all of these with or without `noreply`, `get` and `gets` of any keys, `version`, `quit` and `shutdown` |
| `MemcacheProtocol.SetJoinGet` | muduo/examples/memcached/server/MemcacheServer.cc:92-117 | `set k x`, `append k y`, `get k` answers x + y, and `prepend` y + x, with the flags of the `set`, for all keys, flags and data |
| `MemcacheProtocol.RefusedIff` | muduo/examples/memcached/server/MemcacheServer.cc:60-91 | `add` is refused if and only if the key is there, `replace`, `append` and `prepend` if and only if it is not; a refused update changes nothing |
| `MemcacheProtocol.SetDeleteGet` | muduo/examples/memcached/server/Session.cc:396-423 | `set k x`, `delete k`, `get k` answers STORED, DELETED, END, and all other keys keep their items |
| `MemcacheProtocol.DeleteTells` | muduo/examples/memcached/server/Session.cc:412-421 | `delete` tells whether the key was there and removes it and no other |
| `MemcacheProtocol.NoreplyIsSilent` | muduo/examples/memcached/server/Session.cc:317-323 | with `noreply` a request sends nothing and does what it does without |
| `MemcacheProtocol.GetsThenCas` | muduo/examples/memcached/server/Session.cc:148-172 | `gets` sends the version, and `cas` stores if and only if it names that version |
| `MemcacheProtocol.QuitEndsTheSending` | muduo/examples/memcached/server/Session.cc:290-293 | after `quit` nothing is sent, whatever requests follow |
| `MemcacheProtocol.TooLargeIsSkipped` | muduo/examples/memcached/server/Session.cc:379-387 | a value over 1 MiB is refused and skipped to its last byte: the next request is read right behind it, and the key is gone |
| `MemcacheProtocol.ExpiryIs` | muduo/examples/memcached/server/Session.cc:355-367 | expiration times up to 30 days are kept, later ones become relative to the start, at least one second |
| `ByteBuffer.Buffer.constructor` | muduo/muduo/net/Buffer.h:49-57 | empty, with the room asked for and the cheap prepend |
| `ByteBuffer.Buffer.Retrieve` | muduo/muduo/net/Buffer.h:123-134 | drops bytes from the front of the readable bytes |
| `ByteBuffer.Buffer.RetrieveAsString` | muduo/muduo/net/Buffer.h:175-181 | returns and drops them |
| `ByteBuffer.Buffer.Append` | muduo/muduo/net/Buffer.h:193-198 | adds the bytes at the end, whatever had to move |
| `ByteBuffer.Buffer.EnsureWritableBytes` | muduo/muduo/net/Buffer.h:205-212 | makes room and keeps the readable bytes |
| `ByteBuffer.Buffer.MakeSpace` | muduo/muduo/net/Buffer.h:409-428 | both ways of making room keep the readable bytes, and the assert before the move always holds |
| `ByteBuffer.Buffer.MoveToFront` | muduo/muduo/net/Buffer.h:418-426 | the forward copy keeps the readable bytes although it overlaps |
| `ByteBuffer.Buffer.Unwrite` | muduo/muduo/net/Buffer.h:230-234 | drops bytes from the end |
| `ByteBuffer.Buffer.Prepend` | muduo/muduo/net/Buffer.h:370-376 | adds the bytes at the front |
| `ByteBuffer.Buffer.Shrink` | muduo/muduo/net/Buffer.h:378-385 | keeps the readable bytes and leaves the reserve |
| `ByteBuffer.Buffer.ReadInt32` | muduo/muduo/net/Buffer.h:281-286 | takes four bytes in network order |
| `ByteBuffer.Buffer.AppendInt32` | muduo/muduo/net/Buffer.h:248-252 | adds four bytes in network order |
| `ByteBuffer.Buffer.ReadFd` | muduo/muduo/net/Buffer.cc:25-57 | appends exactly the bytes read, across the spill into the extra block; an error changes nothing |
| `ByteBuffer.DecodeOfEncode` | muduo/muduo/net/Buffer.h:318-324 | a 32-bit number is read as it was written |
| `ByteBuffer.EncodeOfDecode` | muduo/muduo/net/Buffer.h:318-324 | and four bytes are written as they were read |
| `ByteBuffer.BytesAreOrdered` | muduo/muduo/net/Buffer.h:318-324 | the bytes of two numbers are ordered as the unsigned numbers are: network byte order |
| `ProtobufCodec.MessagesComeBack` | muduo/muduo/net/protobuf/ProtobufCodecLite.cc:58-97 | however a stream of frames is cut, the callback gets the messages sent, in order, and the buffer keeps only the unfinished frame |
| `ProtobufCodec.AnyPieces` | muduo/muduo/net/protobuf/ProtobufCodecLite.cc:58-97 | on any stream, corrupt ones included, messages, rest and error do not depend on the cuts |
| `ProtobufCodec.CutJoin` | muduo/muduo/net/protobuf/ProtobufCodecLite.cc:58-97 | the same for one cut |
| `ProtobufCodec.ParseOfBody` | muduo/muduo/net/protobuf/ProtobufCodecLite.cc:184-225 | parsing undoes framing |
| `ProtobufCodec.FrontOfFrame` | muduo/muduo/net/protobuf/ProtobufCodecLite.cc:62-91 | a whole frame is taken as its message if it is within the limit, and refused otherwise |
| `ProtobufCodec.PartWaits` | muduo/muduo/net/protobuf/ProtobufCodecLite.cc:92-95 | every proper prefix of a frame waits |
| `ProtobufCodec.GotIff` | muduo/muduo/net/protobuf/ProtobufCodecLite.cc:62-91 | a message is handed over if and only if the buffer begins with a length within the limits, the tag, bytes that parse to it, and the checksum of tag and bytes, and the raw callback lets the frame pass |
| `ProtobufCodec.FailIff` | muduo/muduo/net/protobuf/ProtobufCodecLite.cc:192-225 | each error is reported if and only if the frame has that defect, and none before it |
| `ProtobufCodec.WaitIff` | muduo/muduo/net/protobuf/ProtobufCodecLite.cc:92-95 | the codec waits if and only if the buffer begins with neither a whole frame nor a wrong length |
| `ProtobufCodec.CutIs` | muduo/muduo/net/protobuf/ProtobufCodecLite.cc:58-97 | the messages handed over are those of the whole frames at the front, in order; the rest begins with no whole frame, or with the one that gave the error |
| `ProtobufCodec.BadFrameStops` | muduo/muduo/net/protobuf/ProtobufCodecLite.cc:84-88 | nothing after the first bad frame is handed over, however much arrives |
| `ProtobufCodec.ProtobufCodecLite.FillEmptyBuffer` | muduo/muduo/net/protobuf/ProtobufCodecLite.cc:42-56 | leaves the frame of the message in the buffer |
| `ProtobufCodec.ProtobufCodecLite.OnMessage` | muduo/muduo/net/protobuf/ProtobufCodecLite.cc:58-97 | the loop terminates, hands over the messages at the front of the buffer and leaves the rest |
| `ProtobufCodec.ProtobufCodecLite.Look` | muduo/muduo/net/protobuf/ProtobufCodecLite.cc:62-91 | decides what the front of the buffer holds |
| `Date.DayToDateAndBack` | muduo/muduo/base/Date.cc:20-42 | every day number from -32044 to 536838867 has a date of the calendar, whose number it is, without overflow |
| `Date.DateToDayAndBack` | muduo/muduo/base/Date.cc:20-42 | every date of the calendar with a number in that range is the date of its number |
| `Date.SuccessorIsNextDay` | muduo/muduo/base/Date.cc:20-27 | the next date has the next number |
| `Date.Epoch` | muduo/muduo/base/tests/Date_unittest.cc:55-56 | 1900-01-01 is day 2415021 and a Monday |
| `Date.WeekDayIff` | muduo/muduo/base/Date.h:95-99 | `weekDay` is one of 0..6 if and only if the day is not before -1, or is a Sunday; from -1 on it advances by one each day |
| `SudokuStat.RingIsHistory` | muduo/examples/sudoku/stat.h:85-160 | after every history, with any jumps of the clock, each slot is the count and the latency sum of all responses in its second |
| `SudokuStat.RecordedOk` | muduo/examples/sudoku/stat.h:85-160 | recording keeps that, and the window never moves back |
| `SudokuStat.RecordedWindow` | muduo/examples/sudoku/stat.h:101-158 | no slot leaves before it is 60 seconds old: the window ends with the latest second and starts where it did, or 59 seconds before its end if that is later; only a jump of 60 seconds or more starts it afresh |
| `SudokuStat.WindowIs` | muduo/examples/sudoku/stat.h:85-160 | over histories: the window ends with the latest second counted, and starts with the response that was the first or the last to jump by 60 seconds or more, or 59 seconds before its end if that is later |
| `SudokuStat.OneOpens` | muduo/examples/sudoku/stat.h:85-160 | in every history only one response opens the window that is left |
| `SudokuStat.Stat.RecordResponse` | muduo/examples/sudoku/stat.h:85-160 | the ring and the totals are those of the history extended by the response |
| `SudokuStat.Stat.Slide` | muduo/examples/sudoku/stat.h:101-158 | finds or makes the slot, with the loop over skipped seconds |
| `SudokuStat.Stat.Reset` | muduo/examples/sudoku/stat.h:68-83 | starts a new history |
| `IdleWheel.WheelIsClock` | muduo/examples/idleconnection/echo.cc:35-80 | in every run, an entry is alive just if its connection was active within the last N ticks, and the connection is shut down by the N-th tick after its last activity, if still open, and by no other |
| `IdleWheel.ShutDownOnce` | muduo/examples/idleconnection/echo.h:52-59 | no connection is shut down twice |
| `IdleWheel.EventOk` | muduo/examples/idleconnection/echo.cc:35-80 | every connect, message, close and tick keeps wheel and clock in agreement |
| `IdleWheel.DyingIs` | muduo/examples/idleconnection/echo.h:52-66 | the entries whose last reference goes are those last active N - 1 ticks before |
| `IdleWheel.EchoServer.OnConnection` | muduo/examples/idleconnection/echo.cc:35-55 | a new connection is active now; a closed one is no longer shut down |
| `IdleWheel.EchoServer.OnMessage` | muduo/examples/idleconnection/echo.cc:57-74 | a message counts as activity just if the entry is alive |
| `IdleWheel.EchoServer.OnTimer` | muduo/examples/idleconnection/echo.cc:76-80 | turns the wheel and shuts down the connections whose entries die |

## Left out

- Sockets, system calls, `TcpConnection`, `Channel`, `Acceptor` and `Connector` are not modelled; the kernel appears as an interest map, a counter, an alarm and the bytes it delivers.
- Clocks, randomness, hash functions, checksums (Adler-32 of RFC 1950, section 2.2) and the serialization of protobuf messages are parameters; `ProtobufCodec.MessagesComeBack` assumes that parsing undoes serialization and that no raw-message callback takes frames away.
- `ThreadPool::stop` and exceptions in tasks are not modelled; the results are about a running pool.
- Arithmetic is unbounded, except in `Date.dfy`, in the casts and lengths of the memcached server and in the length of a frame; counters such as `g_cas` do not wrap, and memory does not run out.
- Of `LogStream.h` only `FixedBuffer` is modelled, without its debugging cookie; the formatting of log lines is left out.
- The notice "Dropped log messages" and the flushing and rolling of the log file are not modelled.
- Floating-point times of `addTime` and `timeDifference` are whole microseconds, and timers have positive expirations.
- `PollPoller` and `EPollPoller` are used as `Channel` uses them: a first update has events, a removal follows `disableAll`, and a removed channel is not added again.
- The binary memcached protocol, `memstat`, the counters of statistics and the shrinking of the output buffer are not modelled; a session is modelled with the table to itself, and the other threads that use the table are the subject of `MemcacheThreads.dfy`.
- A key or token with a carriage return is outside the statements of `MemcacheRoundTrip.SetThenGet` and `MemcacheProtocol.ServerIsMap`, as it is outside the protocol; so are numbers of 2^64 and more, an empty line, and the lines and values of `MemcacheRequests.MessageCrashesIffFatal`, which bring the server down.
- 64-, 16- and 8-bit integers, `findEOL` and `swap` of `Buffer` would only repeat what is shown for 32 bits.
- `SudokuStat.dfy` assumes a clock after 1970-01-01 00:00:00, since second 0 means that nothing has been recorded; the counters of requests, bad requests and dropped requests are left out.
- `Date::toIsoString`, time zones, HTTP, FastCGI, the RPC layer, the inspectors and the other example servers are left out.
