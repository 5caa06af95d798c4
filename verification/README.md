# Verified models of the shared task queue and the date cut

Two components of the repository carry its concurrency and its persistent state.
This project models both in Dafny and proves what their callers rely on.

**The bounded blocking queue** (`src/common/pokaqueue.c`, `include/pokaqueue.h`): a
ring of `QUE_SIZE` slots guarded by one mutex and two condition variables, with a
blocking push, a blocking pop, a non-waiting pop and a destroy that frees what is left.

- `RingBuffer.dfy` holds the fields as one value, each statement of the source as a
  function on it, and the relation `Represents` between a ring and a FIFO's contents.
- `BoundedFifo.dfy` is the reference: an atomic FIFO of bounded capacity, and `Replay`,
  which runs a log of atomic operations on it and rejects any the FIFO does not allow.
- `SoloCaller.dfy` and `CirQueue.dfy` are the queue for one caller at a time: whole calls
  as functions, and the class `CirQueue` whose methods update the array, the indices and
  the count in place.
- `QueueThreads.dfy` is the queue for any number of threads with arbitrary programs of
  calls: one program counter per statement, one transition per statement.
  `QueueHistory.dfy` says what the schedule is free to do and what a state tells about
  the run behind it.
  `QueueSafety.dfy`, `QueueGuarantees.dfy`, `QueueProgress.dfy`, `QueueCompletion.dfy` and
  `QueueLifetime.dfy` prove its properties over all runs; `ThreadSums.dfy` adds up
  quantities over threads.

**The date cut** (`src/common/datecut.c`): a record with a two-valued status that follows
the clock with hysteresis, rolls a pair of dates forward each time the window is left, and
writes every change to a database row that a restart reloads.

- `DateCut.dfy` has the record, the table, and the classes whose methods are the source's functions.
- `DateCutRuns.dfy` proves properties of whole runs, restarts included.
- `DateCutThread.dfy` is the thread: the connect loop with its back-off, then the ticks.

`dafny verify dfyconfig.toml` checks everything.

## Reading the model

A run of the threads is a list of labels. `Run(i, wake)` executes the statement thread
`i` stands at; `wake` is the set of threads its signal wakes. `Spurious(i)` lets thread
`i` come out of its sleep unsignalled. `Reached(n, programs, run, s)` says that `run`,
started on an initialised ring of `n` slots with one program of calls per thread, is
executable and leads to `s`. A theorem about all reachable states is a lemma over all
`n >= 2`, programs, runs and states with `Reached`.

The program counters and the statements they stand for, in `src/common/pokaqueue.c`:
`Lock` 59, 83, 101; `Test` 61, 84, 102; `Wait`, `Asleep` and `Woken` 64, 87; `Store` 67;
`Read` 90, 108; `Clear` 91, 109; `Advance` 68, 92, 110; `Tally` 69, 93, 111; `Signal` 70,
94, 112; `Unlock` 71, 95, 113; `UnlockNull` 104. No transition tests who holds the mutex
except the acquisition itself, so mutual exclusion is a theorem and not built in. The
`log` in the state is bookkeeping no transition reads: an event is appended when a call
moves its index, or when a non-waiting pop finds the queue empty.

The condition variables behave as pthread_cond_wait and pthread_cond_signal in
POSIX.1-2017, System Interfaces volume, chapter 3: waiting releases the mutex and sleeps
in one step; a signal wakes at least one sleeper of its condition if there is one,
possibly more; a woken thread competes for the mutex and may be overtaken; spurious
wakeups can happen at any time.

Assumptions:

- The header's `QUE_SIZE` is 2000 and the class uses that; all ring and thread theorems
  hold for every number of slots from 2 up. (At 1 the ring would be empty and full at once.)
- Payloads may be NULL except where a lemma asks for `NULL !in Pushed(...)`; they may
  repeat except where one asks for `Distinct`.
- Destroy runs while the mutex is free, so that its own lock succeeds, and nothing uses the
  queue afterwards. Threads may still be asleep in `pthread_cond_wait`: so it is in the one
  destroy of a shared queue, which the SIGINT handler of `src/pokapbrmb/pokapbrmb.c`
  (lines 122-130) makes before it exits the process.
- The DATECUT table stores and returns records faithfully. It is modelled as the MySQL
  driver (`src/db/mysql/dbdatecut.c`) uses it: SELECT reads the first row, UPDATE has no WHERE clause and changes every
  row but for its id, INSERT numbers the row. With a single row the Oracle driver behaves
  the same.
- `GetTimeInt` and `GetDateInt` are inputs, never negative, and one tick reads one
  consistent pair although the code reads the time and the date one after the other.
  Nothing is assumed about the order of `cuttime` and `endtime`. Where a clock must not go
  back, the lemma says so with `Monotone`.

Three facts about the code that the proofs bring out:

- The record loaders (`src/pokafile/skfile.c`, `src/pokafile/bffile.c`) push a whole file
  into a private queue before they pop anything, from the only thread that knows the
  queue. `SoloCaller.LoadThenDrain` shows that this comes to an end exactly when the file
  has at most `QUE_SIZE - 1` = 1999 records; with 2000 the loader blocks in its last push
  (`SoloCaller.LoadOfQueSizeRecords`).
- The back-off multiplier wraps to 0 after 179 failures, so attempt 180 is followed by a
  retry without any sleep; `DateCutThread.SleepUnitsClosedForm` accounts for it.
- Until the database has answered once, `is_date_cut` says ERROR even inside the window
  (`DateCutThread.AskNewProcess`), so the directory threads (`src/pokafile/file.c`, lines 194
  and 272), which ask it without connecting, do not pause.

The log texts of the date cut disagree with its status: `src/common/datecut.c:57` announces
a start when the status becomes END, and line 63 a stop when it becomes START. The model
follows the status.

## Model

| member | source | states |
|---|---|---|
| `RingBuffer.IndexExpressions` | src/common/pokaqueue.c:50 | The model's successor and predecessor slots are the source's modular expressions, for every slot and every ring size |
| `RingBuffer.TestsDecide` | src/common/pokaqueue.c:39-51 | The two index tests, which never read count, hold exactly when the contents are empty or fill all slots but one, equivalently when count is 0 or n-1, and never both |
| `RingBuffer.CountIsModularDistance` | src/common/pokaqueue.c:68-69 | count is (rear - front) mod n and stays between 0 and n-1 |
| `RingBuffer.ItemsOfRepresentation` | src/common/pokaqueue.c:17-22 | A ring represents at most one contents, the one a walk from front to rear reads |
| `RingBuffer.EmptyRepresents` | src/common/pokaqueue.c:30-32 | The initialised ring represents the empty FIFO |
| `RingBuffer.PushRepresents` | src/common/pokaqueue.c:67-69 | Store, rear update and count++ on a ring that is not full append exactly the payload, wherever the wrap-around falls |
| `RingBuffer.PopRepresents` | src/common/pokaqueue.c:90-93 | Read, clear, front update and count-- on a ring that is not empty deliver and remove exactly the oldest item |
| `RingBuffer.OccupiedIsInterval` | src/common/pokaqueue.c:67-69 | With non-NULL payloads the occupied slots are exactly the cyclic interval from front to rear and there are count of them |
| `RingBuffer.LiveSlotsAreTheInterval` | src/common/pokaqueue.c:127-132 | The walk of destroy comes to every live slot, to no other, and to none twice |
| `BoundedFifo.PoppedThenContentsIsPushed` | src/common/pokaqueue.c:57-115 | Any history the atomic FIFO allows is first in, first out and loses nothing: what came out followed by what is inside is what went in, within the capacity |
| `BoundedFifo.ProducerOrder` | src/common/pokaqueue.c:57-97 | In such a history the items of one producer among those that have left are its first pushes, in its order |
| `SoloCaller.RingCallRefines` | src/common/pokaqueue.c:57-115 | Each whole call returns or blocks exactly as on a bounded FIFO and leaves the ring representing that FIFO |
| `SoloCaller.RingRunRefines` | src/common/pokaqueue.c:57-115 | Any finite program of pushes, pops and non-waiting pops gets from the ring exactly what it gets from a plain bounded sequence |
| `SoloCaller.CallIsAccepted` | src/common/pokaqueue.c:57-115 | A whole call returns a result if and only if the atomic FIFO allows that result, with the same contents afterwards, and blocks if and only if it allows none |
| `SoloCaller.SoloRunReplays` | src/common/pokaqueue.c:57-115 | What any program of whole calls gets is, up to the call that blocks, a history of the same atomic FIFO by which the threads are judged |
| `SoloCaller.LogCoversRun` | src/common/pokaqueue.c:57-115 | That history holds every call of the program, or every call before the one that blocks |
| `SoloCaller.LoadThenDrain` | src/common/pokaqueue.c:57-115 | Pushing a whole file and then draining it from one thread ends if and only if the file has at most n-1 records; then the records come back in order, followed by one NULL, and nothing is left; otherwise the push of record n blocks |
| `SoloCaller.LoadOfQueSizeRecords` | src/common/pokaqueue.c:61-65 | With QUE_SIZE = 2000 slots and 2000 records, 1999 pushes return, the first 1999 records are queued, and the push of the last one blocks |
| `CirQueueObject.CirQueue.constructor` | src/common/pokaqueue.c:16-33 | init yields a valid, empty queue whose walk starts at slot 0 |
| `CirQueueObject.CirQueue.TestsAreAboutContents` | src/common/pokaqueue.c:39-51 | The object's two tests answer for its contents |
| `CirQueueObject.CirQueue.PushCirQueue` | src/common/pokaqueue.c:57-74 | Appends to the contents and returns, or sleeps with the queue unchanged, exactly as the bounded FIFO; the mutex is taken once and free again either way |
| `CirQueueObject.CirQueue.PopCirQueue` | src/common/pokaqueue.c:80-97 | Removes and returns the oldest item, or sleeps on the empty queue unchanged; the mutex is taken once and free again either way |
| `CirQueueObject.CirQueue.PopNotwaitCirQueue` | src/common/pokaqueue.c:98-115 | Removes and returns the oldest item, or returns at once from the empty queue unchanged; the mutex is taken once and free on both exits |
| `CirQueueObject.CirQueue.FreeLiveSlots` | src/common/pokaqueue.c:117-132 | The circular loop ends for every front and rear, visits the live slots once each in FIFO order, and frees the non-NULL pointers it finds there, in that order |
| `CirQueueObject.CirQueue.DestroyCirQueue` | src/common/pokaqueue.c:124-138 | Frees exactly the non-NULL contents in FIFO order and makes the object unusable |
| `QueueSafety.HolderStep` | src/common/pokaqueue.c:59-115 | Each statement between lock and unlock keeps the ring, its half-done update set right, in step with the atomic FIFO |
| `QueueSafety.SafeStep` | src/common/pokaqueue.c:57-115 | Every transition of every thread keeps all invariants: mutual exclusion, ring against log, each thread against its part of the log |
| `QueueSafety.ReachedIsSafe` | src/common/pokaqueue.c:16-115 | Every state of every run from init satisfies them |
| `QueueHistory.SignalMayWakeAny` | src/common/pokaqueue.c:70-112 | A signal may wake any nonempty set of the threads asleep on its condition, a single one as well as all, and none only if there are none; it moves those to competing for the mutex and touches no other thread, nor the ring |
| `QueueHistory.AnySleepMayEndSpuriously` | src/common/pokaqueue.c:61-88 | Whatever it sleeps for, any thread asleep in pthread_cond_wait may wake unsignalled, and nothing else changes |
| `QueueHistory.AnyoneMayGoOn` | src/common/pokaqueue.c:57-115 | A free mutex may go to any thread that wants it, so a woken one may be overtaken; no other statement but the signal depends on the schedule |
| `QueueHistory.WaitedIffItWaited` | src/common/pokaqueue.c:61-88 | In every reachable state the flag by which woken threads are counted is set if and only if the run contains a pthread_cond_wait of that thread in its call in progress |
| `QueueGuarantees.ReachedIsClosed` | src/common/pokaqueue.c:16-115 | The initialised queue with any programs is reachable, and so is what any enabled transition makes of a reachable state |
| `QueueGuarantees.MutualExclusion` | src/common/pokaqueue.c:59-71 | At most one thread is between lock and unlock, it is the holder, and a thread that has returned by any exit or sleeps in pthread_cond_wait holds nothing |
| `QueueGuarantees.OnlyHolderWrites` | src/common/pokaqueue.c:67-69 | Only the holder of the mutex changes data, front, rear or count |
| `QueueGuarantees.FreeMeansConsistent` | src/common/pokaqueue.c:59-71 | Whenever the mutex is free the ring holds what the history says, count is the modular distance and the size, and both index tests are exact |
| `QueueGuarantees.FreeMeansExactOccupancy` | src/common/pokaqueue.c:90-93 | Whenever the mutex is free and no NULL was pushed, the occupied slots are exactly the cyclic interval and number count |
| `QueueGuarantees.StepRefines` | src/common/pokaqueue.c:57-115 | Each transition is invisible to the atomic FIFO or is one atomic operation on it, by the stepping thread, inside its call, with an allowed result |
| `QueueGuarantees.Linearizable` | src/common/pokaqueue.c:57-115 | In every reachable state the log is a history the FIFO allows and contains, per thread, its calls in program order with the results they returned and at most one call in progress |
| `QueueGuarantees.RealTimeOrder` | src/common/pokaqueue.c:57-115 | The log only grows, and what has returned stands before everything that takes effect later |
| `QueueGuarantees.PopsGiveTheOldestPointer` | src/common/pokaqueue.c:80-115 | The pointer either pop returns is the very pointer that is oldest in the FIFO when the pop takes effect; on an empty FIFO only the non-waiting pop returns, with NULL |
| `QueueGuarantees.NullResults` | src/common/pokaqueue.c:98-115 | With non-NULL payloads a non-waiting pop gives NULL if and only if the FIFO was empty when it took effect, and then changes nothing; a blocking pop never gives NULL |
| `QueueGuarantees.FifoAlways` | src/common/pokaqueue.c:57-115 | In every reachable state of every interleaving, pushed equals popped followed by what a walk over the ring reads once the holder's half-done update is set right; the indices give its size, at most n-1 |
| `QueueGuarantees.ItemsLeaveInProgramOrder` | src/common/pokaqueue.c:57-97 | Items leave oldest first, and those of one producer in the order of its program |
| `QueueProgress.NothingForgottenStep` | src/common/pokaqueue.c:61-70 | Every transition keeps both wakeup budgets, overtaking, spurious wakeups and non-waiting pops included |
| `QueueProgress.NoLostWakeup` | src/common/pokaqueue.c:84-94 | While a pop sleeps unsignalled, the (rear - front) mod n items in the ring are at most the woken unserved pops plus one push that has not signalled; dually for sleeping pushes and free slots, both pops signalling; mid-call states included |
| `QueueProgress.WokenThreadsCover` | src/common/pokaqueue.c:61-94 | Told from the run alone: while a thread sleeps, each item (or free slot) is covered by a thread of its own that has executed pthread_cond_wait for one in its present call, is awake again and not yet served, but for one whose provider is about to signal |
| `QueueCompletion.StuckExactlyWhenAllDoneOrAsleep` | src/common/pokaqueue.c:57-115 | No thread can move if and only if every thread has finished or sleeps in pthread_cond_wait |
| `QueueCompletion.StuckStates` | src/common/pokaqueue.c:57-115 | In a reachable state where none can move the mutex is free and all have finished, or only pops are left on an empty ring, or only pushes on a full one, for any programs |
| `QueueCompletion.MeasureStep` | src/common/pokaqueue.c:57-115 | Every statement lowers one measure, however many threads a signal wakes; a spurious wakeup raises it by 8 |
| `QueueCompletion.RunLength` | src/common/pokaqueue.c:57-115 | m threads with c calls execute at most c(11m+1)+10m transitions, and nine more per spurious wakeup, in any interleaving |
| `QueueCompletion.CanRunToTheEnd` | src/common/pokaqueue.c:57-115 | From every safe state some continuation without spurious wakeups ends where none can move |
| `QueueCompletion.Demand` | src/common/pokaqueue.c:67-69 | For any programs and in every reachable state, the calls of each of the three kinds that have taken effect and those still to come add up to those in the programs |
| `QueueCompletion.Completion` | src/common/pokaqueue.c:57-115 | With push-only threads making P pushes, and threads mixing C blocking pops and any non-waiting pops, G of which got an item, a state where none can move has all finished if and only if 0 <= P-C-G <= n-1, with that many items queued; otherwise exactly the missing pops, or the pushes beyond n-1, are left asleep |
| `QueueCompletion.BalancedNeverDeadlocks` | src/common/pokaqueue.c:57-115 | With K non-waiting pops in the programs and K <= P-C <= n-1, which callers can check beforehand, no schedule leaves any thread asleep for good |
| `QueueCompletion.FinishedMeansBalanced` | src/common/pokaqueue.c:57-115 | For programs of any kind, where all have finished P-C-G lies between 0 and n-1 and is the number of items queued |
| `QueueLifetime.BalanceIsNotEnoughForMixedThreads` | src/common/pokaqueue.c:80-89 | For a thread that pops before it pushes that balance holds and yet it sleeps for good, so the other half of the condition does need threads that push or take |
| `QueueCompletion.CanAlwaysFinish` | src/common/pokaqueue.c:57-115 | Under that condition all threads can still finish from every reachable state, with no further spurious wakeup |
| `QueueLifetime.Lifetime` | src/common/pokaqueue.c:124-138 | From init through any run up to a destroy that finds the mutex free, sleeping threads or not, the non-NULL pointers pushed are those taken out followed by those freed; if they are distinct none is freed twice and none is both taken out and freed |
| `QueueLifetime.UndisturbedCall` | src/common/pokaqueue.c:57-115 | A thread that finds the mutex free can execute its whole call by statements of its own alone, and comes to what the lone caller's whole call comes to: same ring, same result, mutex free, or asleep where that call blocks |
| `QueueLifetime.EveryUndisturbedCall` | src/common/pokaqueue.c:57-115 | In every run made of one thread's statements alone, from the beginning of its call on, the thread is at rest (returned, or asleep in the call) if and only if ring, mutex and result are those of the lone caller's whole call |
| `DateCut.InitSyncs` | src/common/datecut.c:15-36 | After init the memory is the stored row; init changes no stored row, adds one only to an empty table, and on a memory already in step changes nothing |
| `DateCut.TickKeepsSynced` | src/common/datecut.c:46-68 | Every change of the record within a tick reaches the stored row in that tick |
| `DateCut.Table.Select` | src/common/datecut.c:17 | Reads the first row, or fails and leaves the record as it was |
| `DateCut.Table.Update` | src/common/datecut.c:56 | Every row takes all fields of the record but its id, which stays; no row comes or goes |
| `DateCut.DateCutProcess.InitDateCut` | src/common/datecut.c:15-36 | Loads the stored row or makes, stores and reloads a first record; memory and table agree afterwards |
| `DateCut.DateCutProcess.UpdateDateCup` | src/common/datecut.c:46-68 | One tick on memory and table together, keeping them in step |
| `DateCutRuns.RestartsAreTransparent` | src/common/datecut.c:15-68 | However restarts are placed, even in the middle of a tick before its UPDATE, the record is the one an uninterrupted process has after the completed ticks, and agrees with the table |
| `DateCutRuns.GuardsDivideTheDay` | src/common/datecut.c:52-60 | The two guards are the comparisons with the two times: strictly between them, or neither between nor on one of them; in a reversed window every time counts as outside |
| `DateCutRuns.StatusIsLatestVerdict` | src/common/datecut.c:51-65 | The status is START if and only if the latest sample off the boundaries was inside the window, or there was none and it had started |
| `DateCutRuns.StatusInTimes` | src/common/datecut.c:51-65 | The same in numbers: the status is 1 if and only if some sample had cuttime < t < endtime and every later one was cuttime or endtime, or it was 1 and all samples were; in a reversed window only if it was 1 and there was no sample; it is never anything but 0 or 1 |
| `DateCutRuns.StatusSinceFirstStart` | src/common/datecut.c:15-65 | Since a first start on an empty table, restarts or not, the status is START if and only if the latest clock reading off the boundaries, that of the first start included, was inside the window |
| `DateCutRuns.FirstStart` | src/common/datecut.c:17-36 | A first start stores and loads the clock's two dates, the window 1 to 40000 and status 1 exactly for 1 < t < 40000; under any events since, curdate is the date of the latest rollover or the second reading, lastdate the rollover before that, the second reading after the first rollover, the first reading before any |
| `DateCutRuns.DateChain` | src/common/datecut.c:52-56 | curdate is the date of the latest rollover and lastdate that of the one before, or the initial curdate after the first |
| `DateCutRuns.StartsAndRolloversAlternate` | src/common/datecut.c:51-65 | Starts and rollovers alternate, so their numbers differ by the initial and final status |
| `DateCutRuns.RolloversCountFalls` | src/common/datecut.c:51-65 | The number of rollovers is the number of outside samples directly after an inside one, boundary samples left out |
| `DateCutRuns.StartsAreOnDifferentDates` | src/common/datecut.c:59-65 | With a monotone clock START is entered at most once per date |
| `DateCutRuns.RolloverBound` | src/common/datecut.c:46-68 | With a monotone clock there are at most as many rollovers as sampled dates, plus one if the run began in START |
| `DateCutRuns.DatesStayInOrder` | src/common/datecut.c:15-68 | With a clock that does not go back, lastdate <= curdate <= today in memory and in the table, however restarts are placed |
| `DateCutRuns.DatesSinceFirstStart` | src/common/datecut.c:15-68 | The same from a first start on an empty table, whose record bears the number the table gave it |
| `DateCutThread.SleepUnitsClosedForm` | src/common/datecut.c:72-81 | The sleep after n failures, in ten-second units, is q*16110 + r(r-1)/2 with q and r quotient and remainder of n+1 by 180 |
| `DateCutThread.ConnectLoop` | src/common/datecut.c:72-81 | Stops at the first success, with the multiplier (1 + failures) mod 180 and the sum of the sleeps requested; the loop of include/db/db.h:86-95 is the same |
| `DateCutThread.DateCutThread` | src/common/datecut.c:42-88 | Touches nothing until connected; then the record is the loaded one after all ticks, in step with the table, and the status is_date_cut reports is the verdict of the latest sample off the boundaries |
| `DateCutThread.AskNewProcess` | src/common/datecut.c:14-88 | A new process answers ERROR to is_date_cut as long as no connection attempt has succeeded, whatever the clock says and the table holds; after that SUCESS if and only if the latest sample off the boundaries, or else the loaded record, says START |

## Left out

- `print_queue`, `printf` and `vLog`: no effect on the state.
- Use of the queue during or after destroy, the wait of destroy for a mutex that is held, and destroying a condition variable on which threads still sleep: undefined or outside the free loop; the model makes destroy a last step with the mutex free.
- CirQueueObject.CirQueue.PushCirQueue: says `Blocked` where the source's caller falls asleep, because for a lone caller nothing follows; sleeping, waking and trying again are in the transition system.
- CirQueueObject.CirQueue.PopCirQueue: the same for the empty queue.
- The order of the statements within a call in the class `CirQueue`: there the mutex is a flag and a count of acquisitions; that every access lies between lock and unlock is proved in the transition system.
- CirQueueObject.CirQueue.DestroyCirQueue: waiting for the mutex and destroying the mutex and the condition variables are one flag, `usable`.
- Fairness: nothing bounds how often one woken thread is overtaken by others with calls left; the bound is on the whole run.
- A sufficient condition for threads that both push and pop to finish: the balance is necessary (`FinishedMeansBalanced`) but not enough (`BalanceIsNotEnoughForMixedThreads`), and who is left asleep depends on the order of calls within each program; stuck states, wakeups and run length are proved for them too.
- Failing database calls: a failed SELECT on a non-empty table, a failed INSERT or UPDATE, and the Oracle driver on a table with several rows.
- The endless loops of the thread: run over finite lists of connection answers and samples.
- Real time (`sleep`), `GetTimeInt` and `GetDateInt` themselves, `ThreadConnectDB`: inputs.
- Integer widths: every index, count and intermediate sum of the queue lies below 2 * QUE_SIZE = 4000 and every date and time below 10^8, so no C integer wraps.
- How the file threads use `is_date_cut`, the FTP clients, the file formats, the scripts and the schemas: not part of this model.
