# libcpr, verified

A Dafny model of the parts of libcpr that hold state: the concurrent primitives, the keyfile parser and
printer, the page allocator, the stream buffers, and the packed or in-place representations of bit sets,
strings and numerals. Each module follows one source file.

| files | what they model |
|---|---|
| `RingStore.dfy`, `Pipeline.dfy`, `PipelineRuns.dfy`, `PipelineClose.dfy`, `PipelineWakeups.dfy`, `PipelineCalls.dfy` | the bounded pipeline of `src/pipeline.c` |
| `Threads.dfy`, `Condlock.dfy`, `CondlockWakeups.dfy`, `CondlockStandstill.dfy`, `CondlockCalls.dfy`, `Semaphore.dfy`, `Waitgroup.dfy` | the primitives of `src/thread.c` |
| `Bytes.dfy`, `Keyfile.dfy`, `KeyfileRoundTrip.dfy`, `KeyfileExact.dfy`, `KeyfileBuffer.dfy`, `KeyfileMeaning.dfy`, `KeyfileInPlace.dfy`, `KeyfileSample.dfy` | the keyfile format of `src/keyfile.c` |
| `Mempager.dfy`, `PageList.dfy` | the micro-heap of `src/mempager.c` |
| `BufReader.dfy`, `BufWriter.dfy` | the two halves of `src/bufio.c` |
| `Delimiters.dfy`, `Memio.dfy` | delimited reading of `src/memio.c` |
| `Sequences.dfy` | facts about sequences that the others share |
| `Bitset.dfy`, `Strtype.dfy`, `Strlong.dfy` | `src/bitset.c`, `src/strtype.c`, and the numeral printer of `src/strchar.c` |

`dafny verify dfyconfig.toml` checks the whole project.

## How it is put together

Concurrent code is a step system. A state holds the shared fields, the owner of the mutex and one program
counter for each thread; a schedule is any sequence of steps, each enabled when its turn comes, and every
theorem ranges over all schedules, any number of threads included. Condition variables follow section
7.26.3 of ISO/IEC 9899:2018 and POSIX `pthread_cond_wait`: a wait gives the mutex up atomically, a signal
wakes at least one sleeper if there is any, a sleeper may wake for no reason, and whoever wakes has to take
the mutex again. In the pipeline, whose `closed` flag and broadcasts are not under the lock, testing the
flag, acting on the answer, signalling and leaving are four separate steps.

Each primitive is also pinned down from its callers' side. What its state says is compared with the calls in
the schedule (`PipelineCalls.EveryCallServed`, `Semaphore.HeldByCalls`, `Waitgroup.CounterAtRest`,
`CondlockCalls.DepthByCalls`), and a call whose thread goes on alone, while nobody else takes a step and it
calls nothing new, ends in the state the lemmas named `...Alone` give: returned with its effect, or asleep.

Code that works on memory is imperative: classes and arrays changed in place by loops, each method tied to
a function of its inputs or its old state, and the theorems are about those functions or are the class
invariant. For the stream buffers the invariant *is* the theorem: `BufReader.Reader.Valid` says that the
bytes taken so far followed by `buf[start..end]` are exactly the bytes read, and
`BufWriter.Writer.Valid` says the same of bytes written, bytes pending and puts accepted, so both hold
after any sequence of calls. `read` gives any answers and then repeats one for ever, `write` gives any
answers; what a fill and a line get come to is a function of the bytes held and of those answers
(`BufReader.Filled`, `BufReader.LineOf`), and the methods are proved to compute it.

## Where the code does not do what one would expect

Each of these is proved of the model, with the exact condition under which the code does behave.

- Consumers of a pipeline are signalled only when the ring stops being empty, so the second of two items
  wakes nobody and a consumer can be left asleep beside it. No run strands a consumer if and only if the
  ring has room for one item only, or no producer has two consumers beside itself
  (`PipelineWakeups.NoConsumerStrandedIff`). The mirror image strands producers, unless the policy is
  `DROP` (`PipelineWakeups.NoProducerStrandedIff`). Where every thread may take the other part, that comes
  to at most one consumer, or producer, or at most two threads (`PipelineWakeups.NobodyStrandedAmongAll`).
  `FEATURES.md:57-59` describes one producer and one consumer, which is safe.
- A thread that tested `closed` just before a closer set it can go to sleep after the broadcasts. A close
  wakes everyone if and only if, when the flag is set, no consumer is past its test with the ring empty and
  no waiting producer past its test with the ring full (`PipelineClose.CloseWakesAllIff`). It misses one
  thread at most (`PipelineClose.CloseMissesAtMostOne`), and that one for ever
  (`PipelineClose.MissedForEver`).
- Readers and writers of a condlock share one condition variable, so a signal meant for a writer, from the
  last reader out or from a commit, can be taken by a reader that goes straight back to sleep. In every
  reachable state a sleeping writer has readers inside or a writer on its way, if and only if there are only
  readers, only writers, or at most two threads (`CondlockStandstill.WritersServedIff`). And a thread that
  asks for a second access, or modifies while it reads, can wait for the very writer that waits for it. So no
  run comes to a standstill if and only if there are only readers, only writers, or at most two threads that
  call the lock only when they hold no access (`CondlockStandstill.NoStandstillIff`). A standstill is no
  deadlock as long as its sleepers hold no access and some thread that writes is not caught in it: its modify
  gets in and its commit signals. Otherwise it lasts, spurious wakeups apart
  (`CondlockStandstill.StandstillLastsIff`).
- A wait group strands its waiters if and only if an add wraps the counter to exactly zero while one sleeps
  (`Waitgroup.StrandsIffWrapsToZero` for a step, `Waitgroup.WaitgroupReleases` for a run).
- `save_keyfile` prints whatever `make_keysection` and `make_keydata` stored, and `load_keyfile` does not
  read all of it back: it passes over a key such as `_x` (`KeyfileExact.LostKey`), drops spaces around a name
  (`KeyfileExact.ChangedName`), and so on. A printed line gives back its key, or its name, if and only if that
  has the shape of one and two bytes or more (`KeyfileExact.KeyLineLoadsIff`,
  `KeyfileExact.HeaderLineLoadsIff`); and any store whatever comes back if and only if all its lines do
  (`KeyfileExact.RoundTripIff`).
- The byte that `load_keyfile` tests for a closing bracket is too far by the line's indentation. A load reads
  outside its buffer if and only if some line has an indentation and a last byte that add up to 96
  (`KeyfileBuffer.LoadFailsIff`); 50 bytes are enough (`KeyfileBuffer.ShortLineFails`). And what a line means
  depends on what earlier lines left in the buffer if and only if that byte lies behind the line
  (`KeyfileBuffer.MeaningIffNotStale`).
- `pager_alloc` adds sizes without a check for overflow; it stays inside its pages if and only if the size
  requested plus a header does not overflow (`Mempager.AllocInsideIffNoOverflow`).
- A `write` that answers -1 passes for a complete flush, and everything pending is lost: the bytes are
  conserved if and only if no `write` failed (`BufWriter.Writer.Flush`, `XPut` and `SPut`).
- A read buffer whose bytes have all been handed out is not moved back to its beginning, so a request that
  does not fit behind `start` fails whatever `read` would give, until a reset. A fill can succeed if and only
  if enough is held, or anything is held at all, or there is room behind `start` (`BufReader.FillableIff`).
- `cpr_lgetbuf` returns a line that is held already without any read. When it has to read, it answers NULL
  unless that fills the buffer to the brim, also beside a delimiter just read
  (`BufReader.ShortReadGivesUp`). Some answer of `read` makes it do so if and only if no delimiter is held and
  one fits, with what is held, into a read that leaves room (`BufReader.GivesUpIff`).
- It never returns when no delimiter is held and the buffer is full, or `read` fails for ever, or the read
  that fills the buffer brings no delimiter behind the point the scan has reached (`BufReader.SpinsIff`,
  `BufReader.TurnRepeats`).
- A compaction does not move that point back, so a delimiter can be skipped
  (`BufReader.SkippedDelimiters`), though not when `start == 0` (`BufReader.NoSkipFromStart`). The line ends
  at the first delimiter held, and there is none only where none is held, whatever `read` answers, if and only
  if no delimiter can come to lie where the scan has passed nor come with a short read
  (`BufReader.FirstLineIff`).
- An empty delimiter is found at once and for ever (`Memio.Memory.LGetEmptyDelimiter`).
- `string_tail` keeps the first bytes and `string_head` the last ones; a string of capacity 1 has room for
  no copy but an empty one (`Strtype.CopyFitsIff`).

## Model

| member | source | states |
|---|---|---|
| RingStore.PushAppends | src/pipeline.c:78-81 | a push keeps the ring well formed and puts the item behind those held, wrap-around included |
| RingStore.PopTakesOldest | src/pipeline.c:54-58 | a take and a drop both remove exactly the oldest item and leave the rest in order |
| RingStore.Store.constructor | src/pipeline.c:8-23 | a new pipeline is an empty ring, well formed if and only if its size is not 0 |
| RingStore.Store.Put | src/pipeline.c:78-84 | the push in place appends, and asks for a signal exactly when the ring was empty |
| RingStore.Store.Get | src/pipeline.c:54-61 | the take in place returns the oldest item, and asks for a signal exactly when the ring was full |
| RingStore.Store.Skip | src/pipeline.c:89-93 | a drop in place removes the oldest item |
| RingStore.Store.Drain | src/pipeline.c:40-47 | the drain empties the ring and frees every non-NULL item held once, oldest first |
| Pipeline.StepKeepsRing | src/pipeline.c:34-98 | every step of every thread keeps the ring well formed and balances what it accepts against what it removes |
| Pipeline.AcceptedIsRemovedThenHeld | src/pipeline.c:34-98 | in every run the items accepted are the items removed from the head followed by the items held, in order |
| Pipeline.DeliveredInOrder | src/pipeline.c:50-67 | in every run the deliveries are an ordered subsequence of the accepted puts |
| Pipeline.DeliveredOrFreedOnce | src/pipeline.c:34-98 | in every run a pointer accepted n times is delivered, freed or held n times in all, so never both delivered and freed, nor freed twice |
| PipelineCalls.EveryCallServed | src/pipeline.c:50-98 | in every run that leaves the pipeline open, a thread's accepted items are exactly the arguments of its puts in order, but for one still waiting to push, and it has received an item for each of its gets, but for one still waiting |
| PipelineCalls.AcceptedAreCalls | src/pipeline.c:74-98 | in every run, closes included, a thread's accepted items are an ordered subsequence of the arguments of its puts |
| PipelineCalls.SoleProducerFifo | src/pipeline.c:50-98 | through an open waiting pipeline with one producer, items delivered followed by items held are the arguments of its puts |
| PipelineCalls.GetAlone | src/pipeline.c:50-67 | a get alone takes the oldest item and returns with the lock free, or sleeps on an empty ring |
| PipelineCalls.PutAlone | src/pipeline.c:74-98 | a put alone appends its item and returns with the lock free; on a full ring it sleeps, or drops the oldest item and still appends its own |
| PipelineCalls.ClosedGetAlone | src/pipeline.c:53-66 | a get on a closed pipeline returns and changes nothing |
| PipelineCalls.ClosedPutAlone | src/pipeline.c:77-97 | a put on a closed pipeline returns and changes nothing |
| PipelineCalls.CloseAlone | src/pipeline.c:34-48 | a close alone sets the flag, wakes every sleeper and empties the ring |
| PipelineCalls.CloseAgainAlone | src/pipeline.c:36 | a second close does nothing |
| PipelineClose.StepKeepsInv | src/pipeline.c:34-98 | mutual exclusion: exactly the thread inside a critical section owns the mutex, and only one thread ever closes |
| PipelineClose.ClosedForGood | src/pipeline.c:34-48 | once a closer has drained, the ring is empty for ever and nothing is accepted, delivered or freed again, whoever had passed a test of the flag |
| PipelineClose.CloseMissesAtMostOne | src/pipeline.c:36-38 | when both broadcasts are out, at most one of all threads is still asleep |
| PipelineClose.CloseWakesAllIff | src/pipeline.c:36-38 | a close leaves nobody asleep if and only if, at the exchange, no consumer is past its test with the ring empty and no waiting producer with the ring full |
| PipelineClose.CloseLoses | src/pipeline.c:36-48 | a thread past its test can sleep through the whole close, every other sleeper being woken |
| PipelineClose.CloseCanMissConsumer | src/pipeline.c:36-63 | a reachable state in which the close is over and a consumer sleeps |
| PipelineClose.CloseCanMissProducer | src/pipeline.c:36-87 | a reachable state in which the close is over and a producer sleeps |
| PipelineClose.MissedForEver | src/pipeline.c:34-98 | nothing the pipeline does wakes such a thread |
| PipelineWakeups.NoLostConsumerWakeup | src/pipeline.c:74-84 | in every run of an open pipeline a sole consumer sleeps unsignalled only when the ring is empty or the producer is at its signal |
| PipelineWakeups.NoLostProducerWakeup | src/pipeline.c:50-62 | in every run of an open pipeline a sole producer sleeps unsignalled only when the ring is full or the consumer is at its signal |
| PipelineWakeups.OpenPipelineNeverDeadlocks | src/pipeline.c:50-98 | a sole producer and a sole consumer are never both asleep unsignalled |
| PipelineWakeups.TwoConsumersStrand | src/pipeline.c:50-84 | for every size from 2 up, a run that leaves the second of two consumers asleep beside an item |
| PipelineWakeups.TwoProducersStrand | src/pipeline.c:50-87 | for every size from 2 up, a run that leaves the second of two producers asleep beside room for its item |
| PipelineWakeups.NoConsumerStrandedIff | src/pipeline.c:50-98 | no run strands a consumer if and only if the size is 1 or no producer has two consumers beside itself |
| PipelineWakeups.NoProducerStrandedIff | src/pipeline.c:50-98 | no run strands a producer if and only if the size is 1, the policy is DROP, or no consumer has two producers beside itself |
| PipelineWakeups.NobodyStrandedAmongAll | src/pipeline.c:50-98 | the same when every thread may take the other part: at most one consumer, or producer, or at most two threads |
| Condlock.StepKeepsInv | src/thread.c:19-61 | every step keeps the counters equal to the sets they count and the mutex with one thread |
| Condlock.CondlockSafe | src/thread.c:19-61 | in every run, accesses nested or not, sharing, waiting and pending count accesses held, readers waiting and writers waiting; at most one writer is inside, and never while an access is held |
| Condlock.WritersPreferred | src/thread.c:19-52 | from the moment a writer waits until none does, no thread's accesses grow in number |
| CondlockWakeups.ReadersSleepOnlyForWriters | src/thread.c:19-61 | in every run a reader sleeps unsignalled only while a writer waits or writes |
| CondlockStandstill.WritersServedIff | src/thread.c:19-61 | in every reachable state a sleeping writer has readers inside or another writer on its way, if and only if there are only readers, only writers, or at most two threads |
| CondlockWakeups.WritersServedIffNeverAstray | src/thread.c:36-57 | how that fails in a run: exactly by a signal that wakes readers only, where a writer sleeps and none is awake |
| CondlockStandstill.NoStandstillIff | src/thread.c:19-61 | no run leaves somebody asleep with nobody inside or on the way, if and only if there are only readers, only writers, or at most two threads that call the lock only when they hold no access |
| CondlockStandstill.TwoReadersStandStill | src/thread.c:19-52 | a standstill of two readers and a writer, through the signal of the last reader out |
| CondlockStandstill.TwoWritersStandStill | src/thread.c:19-61 | a standstill of a reader and two writers, through the signal of a commit |
| CondlockStandstill.NestedAccessStandsStill | src/thread.c:19-52 | a standstill of a reader in its second access and a writer |
| CondlockStandstill.UpgradeStandsStill | src/thread.c:19-52 | a standstill of one thread that modifies while it reads |
| CondlockStandstill.StandstillLastsIff | src/thread.c:19-61 | spurious wakeups apart, no sleeper of a standstill is ever woken if and only if its sleepers hold accesses or every thread that writes is asleep in it |
| CondlockCalls.DepthByCalls | src/thread.c:19-42 | in every run a thread holds as many accesses as it called for and got, less those it released |
| CondlockCalls.AccessAlone | src/thread.c:19-29 | an access alone gets in when no writer waits |
| CondlockCalls.AccessWaitsAlone | src/thread.c:22-25 | and sleeps when one does |
| CondlockCalls.WokenReaderAlone | src/thread.c:22-28 | a woken reader gets in when no writer waits any more, and goes back to sleep otherwise |
| CondlockCalls.ReleaseAlone | src/thread.c:31-42 | a release alone gives up one access and wakes as the counters say |
| CondlockCalls.ModifyAlone | src/thread.c:44-52 | a modify alone gets in and keeps the mutex when no access is held, and sleeps otherwise |
| CondlockCalls.CommitAlone | src/thread.c:54-61 | a commit wakes as the counters say and gives the mutex back |
| Semaphore.SemaphoreSafe | src/thread.c:77-95 | in every run used is the number of permits out and never above the limit, a thread sleeps only while permits out and threads woken account for all of them, and exactly the thread inside a critical section owns the mutex |
| Semaphore.HeldByCalls | src/thread.c:77-95 | in every run callers hold as many permits as acquires were called and returned, less the releases called |
| Semaphore.AcquireAlone | src/thread.c:77-87 | an acquire alone returns with a permit and the mutex free when one is left, and sleeps otherwise |
| Semaphore.ReleaseAlone | src/thread.c:89-95 | a release alone gives one permit back, signals, and leaves the mutex free |
| Semaphore.AsleepOnlyWhenAllHeld | src/thread.c:77-95 | at rest, a sleeping thread means that callers hold every permit |
| Waitgroup.CounterModulo | src/thread.c:110-133 | in every run the counter is initial plus the arguments of the adds called, less those still under way and less the dones that found work, modulo 2^32 |
| Waitgroup.StrandsIffWrapsToZero | src/thread.c:110-133 | a step leaves a waiter asleep at zero if and only if it is an add that wraps to zero over a sleeper |
| Waitgroup.ExactIffNeverWraps | src/thread.c:110-133 | the same without the modulo if and only if no add wraps |
| Waitgroup.DonesAccounted | src/thread.c:126-133 | every done called is under way, found work, or found none |
| Waitgroup.CounterAtRest | src/thread.c:110-133 | with nobody inside a call but asleep, the counter is initial plus every add called minus the dones that found work |
| Waitgroup.AddAlone | src/thread.c:110-115 | an add alone adds its argument and leaves the mutex free |
| Waitgroup.DoneAlone | src/thread.c:126-133 | a done alone takes one off, if there is one, and wakes every waiter if none is left |
| Waitgroup.WaitAlone | src/thread.c:117-124 | a wait alone, called or woken, returns at zero and sleeps otherwise |
| Waitgroup.WaitgroupReleases | src/thread.c:110-133 | in every run no waiter is left asleep at zero in any state if and only if no add wraps to zero over a sleeper, and a wait returns only at zero |
| Waitgroup.WrapStrands | src/thread.c:110-124 | a run that wraps the counter over a sleeping waiter |
| Bytes.StrLen | src/strchar.c:8-17 | the bounded length, with its limit of 0 acting like 1 |
| Bytes.Folding | src/strchar.c:61-91 | the two cases of a letter are each other's, and nothing else has two |
| KeyfileExact.HeaderLineLoadsIff | src/keyfile.c:71-90 | the printed line of any name that make_keysection stores names its section again if and only if the name has no outer spaces and two bytes or more |
| KeyfileExact.KeyLineLoadsIff | src/keyfile.c:91-134 | the printed line of any key that make_keydata stores, if it fits, gives key and value again, whatever quotes the value contains, if and only if the key starts with a letter or digit, has no '=', no space at its end and two bytes or more |
| KeyfileExact.LostKey | src/keyfile.c:91-92 | a key that is printed and passed over |
| KeyfileExact.ChangedName | src/keyfile.c:81-89 | a name that is printed and comes back changed |
| KeyfileRoundTrip.LoadAfterSave | src/keyfile.c:59-137 | loading what save printed gives the same sections in order, each with its keys reversed, whatever the line buffer held |
| KeyfileRoundTrip.TwoRoundTrips | src/keyfile.c:59-137 | two round trips are the identity |
| KeyfileExact.RoundTripIff | src/keyfile.c:59-137 | any store at all comes back with its keys reversed if and only if its first section is "*" and every other name, key and value is well formed and fits its line |
| KeyfileExact.LoadsStored | src/keyfile.c:59-119 | a load of any file yields only what make_keysection and make_keydata store, without newlines |
| KeyfileExact.PrintedQuote | src/keyfile.c:129-132 | a value is printed in a quote it does not contain, unless it contains both |
| KeyfileMeaning.PairLineIff | src/keyfile.c:71-114 | any line that fits is a key and its value if and only if it is written as blanks, a key, blanks, '=', one blank at most, the value, blanks; it is then the key in lower case and the value without quotes around it, whatever the buffer held |
| KeyfileMeaning.HeaderLineIff | src/keyfile.c:71-90 | any line that fits and is not indented is a section if and only if it is written as a name in brackets with blanks on either side; it is then the name in upper case |
| KeyfileMeaning.UnendedSkipped | src/keyfile.c:71-72 | a chunk without a newline at its end is passed over |
| KeyfileMeaning.WrittenPair | src/keyfile.c:91-113 | the same from the parts someone writes |
| KeyfileMeaning.BareOfQuoted | src/keyfile.c:107-112 | a value in quotes of either kind keeps its blanks and loses its quotes |
| KeyfileMeaning.WrittenHeader | src/keyfile.c:80-90 | a name in brackets with blanks around it is a section, unless it is one byte right behind the bracket |
| KeyfileMeaning.FileMeans | src/keyfile.c:68-116 | a file loads as its lines mean, one after the other |
| KeyfileSample.SampleLoads | test/keyfile.c:9-16 | two sections of the repository's own test file load, and the test's lookups find what they look for |
| KeyfileInPlace.MatchesAsStored | src/keyfile.c:52-57 | names match if and only if they would be stored alike |
| KeyfileBuffer.LoadFailsIff | src/keyfile.c:70-80 | a load reads outside the buffer if and only if a line's indentation and last byte add up to its size, whatever it held |
| KeyfileBuffer.ShortLineFails | src/keyfile.c:76-80 | fifty bytes that do |
| KeyfileBuffer.MeaningIffNotStale | src/keyfile.c:71-114 | a line means the same whatever the buffer held if and only if the byte tested for a bracket is not behind it in the buffer |
| KeyfileBuffer.LoadsAlike | src/keyfile.c:70-114 | a file without such lines loads the same whatever the buffer held |
| KeyfileInPlace.LookupsSurvive | src/keyfile.c:17-57 | every lookup answers the same after a save and a load of a store without repeated keys |
| KeyfileInPlace.TrimEndLoop | src/keyfile.c:73-74 | the trimming loop in place |
| KeyfileInPlace.HeaderInPlace | src/keyfile.c:80-90 | the section branch in place, spaces inside the brackets included |
| KeyfileInPlace.UnquoteInPlace | src/keyfile.c:107-112 | the unquoting in place |
| KeyfileInPlace.PairInPlace | src/keyfile.c:94-113 | the key branch in place |
| KeyfileInPlace.ParseInPlace | src/keyfile.c:71-114 | the whole line parser in place, buffer left behind included |
| KeyfileInPlace.LoadFile | src/keyfile.c:59-119 | the loading loop over fgets chunks computes the load the round trip is about |
| KeyfileInPlace.SaveFile | src/keyfile.c:121-137 | the printing loops write the bytes the round trip is about |
| KeyfileInPlace.FindSection | src/keyfile.c:52-57 | the first section whose name matches without regard to case |
| KeyfileInPlace.GetValue | src/keyfile.c:17-25 | the value of the first key with the name |
| Mempager.AllocInsideIffNoOverflow | src/mempager.c:77-100 | bytes handed out lie behind a page's header and inside the page if and only if size plus header does not overflow |
| Mempager.NullReasons | src/mempager.c:52-100 | NULL means too large, or no room on any page and no page to be had |
| Mempager.AllocAnswers | src/mempager.c:77-100 | after any calls, told from the regions handed out: NULL exactly when too large, or no page has room and the limit is reached or malloc fails; otherwise the bytes lie on the first page with room, behind all it has given away |
| Mempager.RegionsDisjoint | src/mempager.c:25-100 | after any calls the regions handed out since the last reset are pairwise disjoint, inside their pages, and the page count is exact within a limit |
| Mempager.FirstFitPacks | src/mempager.c:77-100 | with pages made by pager_alloc only, any two pages hold more than one could, and from two pages on over half of all payload is handed out |
| PageList.PageHeap.constructor | src/mempager.c:6-16 | a new pager has no pages |
| PageList.PageHeap.Take | src/mempager.c:52-75 | a request appends a page to the doubly linked list, or changes nothing |
| PageList.PageHeap.Find | src/mempager.c:84-92 | the walk stops at the first page with room |
| PageList.PageHeap.Give | src/mempager.c:77-100 | the allocation on the linked list does what the allocation on the list of cursors does, and keeps the chain well formed |
| PageList.PageHeap.Clear | src/mempager.c:25-42 | a reset frees every page of both lists exactly once |
| BufReader.Reader.Fill | src/bufio.c:146-184 | a fill loses or takes no byte, holds in the end what it held and what one read gave, and succeeds exactly when that is enough or, for a refill, the read failed |
| BufReader.FillableIff | src/bufio.c:146-184 | some answer of read makes a fill succeed if and only if enough is held, something is held, or there is room behind start |
| BufReader.Reader.XGet | src/bufio.c:198-204 | a get takes exactly the bytes asked for, or none, and which is decided by the fill |
| BufReader.Reader.LGet | src/bufio.c:206-232 | the loop gives, for any answers of read, the line, NULL or endless loop of LineOf; a line is taken with its delimiter, otherwise nothing is |
| BufReader.SpinsIff | src/bufio.c:206-232 | it never returns if and only if no delimiter is held and the buffer is full, read fails for ever, or the buffer is filled without a delimiter from where the scan goes on |
| BufReader.TurnRepeats | src/bufio.c:211-231 | in those cases a turn of the loop changes nothing that another would not find again |
| BufReader.GivesUpIff | src/bufio.c:172-179 | some answer of read brings a delimiter and NULL all the same, if and only if none is held and one fits into a read that leaves room |
| BufReader.ShortReadGivesUp | src/bufio.c:172-179 | a short read of a whole line that does |
| BufReader.FirstLineIff | src/bufio.c:210-231 | whatever read answers the line ends at the first delimiter held, and NULL or an endless loop means that none is, if and only if none can come to lie where the scan has passed or with a short read |
| BufReader.NoSkipFromStart | src/bufio.c:157-161 | which holds when start is 0 or nothing is held |
| BufReader.SkippedDelimiters | src/bufio.c:157-161 | a line with a delimiter inside it, and an endless loop before a delimiter |
| BufReader.Reader.Reset | src/bufio.c:89-104 | a reset discards exactly the bytes named, or none, moves the rest down and refills, and answers as that fill does |
| BufReader.Reader.Scan | src/bufio.c:212-228 | the scan finds the first match from its point on in the bytes held, or stops where it runs out of them |
| BufWriter.Writer.Flush | src/bufio.c:106-127 | a flush makes one write of all that is pending: the bytes it takes are written, the rest stays pending, and the answer is whether it took all; a failure passes for that and loses them. Written and pending bytes stay the accepted puts if and only if no write has failed |
| BufWriter.Writer.XPut | src/bufio.c:129-138 | a put is accepted exactly when it fits, or fits the buffer and the flush it needs passes for complete; it then adds its bytes, and otherwise nothing, with the same conservation |
| BufWriter.Writer.SPut | src/bufio.c:140-144 | a string is accepted under the same condition, so one too long for the buffer is refused whole |
| Delimiters.JoinOfSplit | src/memio.c:83-107 | the pieces with delimiters behind them, then the rest, rebuild the bytes |
| Delimiters.SplitIsLeftmost | src/memio.c:88-104 | every piece ends at the first delimiter and the rest contains none |
| Delimiters.PiecesAreFree | src/memio.c:88-104 | no piece contains the delimiter |
| Delimiters.LeftmostIsSplit | src/memio.c:88-104 | there is no other such split |
| Memio.Memory.LGet | src/memio.c:83-107 | one call takes the bytes up to the first delimiter, in both modes, or changes nothing |
| Memio.Memory.GetAll | test/memio.c:15-19 | reading until NULL ends and gives that split in both modes |
| Memio.Memory.LGetEmptyDelimiter | src/memio.c:83-107 | an empty delimiter never advances |
| Bitset.CountBits | src/bitset.c:10-17 | clearing the lowest bit until none is left counts the bits |
| Bitset.MakeBits | src/bitset.c:19-25 | a new bit set is empty |
| Bitset.Set | src/bitset.c:62-67 | adds one number, padding stays zero |
| Bitset.Clear | src/bitset.c:69-74 | removes one number, padding stays zero |
| Bitset.Get | src/bitset.c:55-60 | membership |
| Bitset.MakeMask | src/bitset.c:27-36 | the intersection |
| Bitset.FoldMask | src/bitset.c:38-49 | the difference |
| Bitset.MaskConserves | src/bitset.c:27-49 | masked out and left over are disjoint, make up the whole and add up in number |
| Bitset.BitCount | src/bitset.c:85-93 | the cardinality of the set |
| Bitset.AllBits | src/bitset.h:30-32 | true exactly of the full set |
| Bitset.AnyBits | src/bitset.c:76-83 | true exactly of a set that is not empty |
| Bitset.LowestSet | src/bitset.c:112-127 | the least member, or the size |
| Bitset.LowestClear | src/bitset.c:95-110 | the least number not in the set, or the size |
| Strtype.StringT.Copy | src/strtype.c:73-90 | the text copied, cut to capacity, also from the string's own memory, for every capacity and source that CopyFitsIff admits |
| Strtype.StringT.Append | src/strtype.c:92-105 | the concatenation, cut to capacity |
| Strtype.StringT.Trim | src/strtype.c:134-139 | the text without leading bytes of the list, moved down in place |
| Strtype.StringT.Chop | src/strtype.c:141-146 | the text without trailing bytes of the list |
| Strtype.StringT.Tail | src/strtype.c:148-158 | the first bytes of the text |
| Strtype.StringT.Head | src/strtype.c:160-168 | the last bytes of the text, moved down in place |
| Strtype.StringT.Clear | src/strtype.c:54-60 | the empty text |
| Strtype.TrimShortens | src/strchar.c:211-225 | trimming gives the longest suffix that does not start in the list |
| Strtype.ChopShortens | src/strchar.c:227-241 | chopping gives the longest prefix that does not end in the list |
| Strtype.CopyFitsIff | src/strtype.c:77-88 | the terminator of a copy falls inside the memory if and only if the capacity is 2 or more or the source is empty |
| Strlong.Reverse | src/strchar.c:165-178 | three exclusive-ors a step reverse the bytes in place |
| Strlong.Print | src/strchar.c:180-209 | the buffer holds the canonical numeral, which reads back as the number, or the answer is NULL exactly when it needs all but one byte of the buffer |
| Strlong.NumeralIsCanonical | src/strchar.c:180-209 | the numeral has no leading zero and no sign but a minus |
| Strlong.NumeralParses | src/strchar.c:180-209 | the numeral reads back as the number |
| Strlong.NumeralIsTheOnlyOne | src/strchar.c:180-209 | no other canonical numeral does |

## Left out

- Sockets, addresses, multicast, events, services, system files, terminals and `cpr_waitbuf`: operating-system calls with little logic.
- The `_WIN32` branches and the bodies of `src/thread.h`: foreign calls, taken at their standard meaning.
- `cpr_strcpy`, `cpr_strcat` and `pager_strdup`: `cpr_strcpy` overwrites the last byte it copied (`src/strchar.c:27-29`).
- Functions that print or scan by a format: they are libc's.
- Endian accessors, hexadecimal loading, deadlines, reference counts, `cpr_xgetmem` and `cpr_xputmem`: they would add only easy members.
- NULL arguments, which every function tests first, and the failure of `malloc` outside the pager.
- The runs of a pipeline of size 0, which divides by zero or reads outside its buffer.
- The counters of condlock and semaphore are unbounded; each is proved to count threads, accesses or permits, so none wraps below 2^32 of them.
- Pager pages are at least a header and at most `PTRDIFF_MAX` bytes; `pager_create` accepts a smaller page, whose header does not fit it.
- The linked lists of a keyfile are modelled as sequences, so sharing of nodes is not captured; `append_keysections` and `free_keyfile` are not modelled.
- KeyfileBuffer.LoadsAlike: goes one way, because an earlier line may have written the byte that a later one tests behind itself.
- BufReader.Reader.LGet: the delimiter must not be empty, because an unread byte would be overwritten.
- BufWriter.Writer.constructor: starts from `put == 0`, which `cpr_makebuf` leaves unset (`src/bufio.c:83-85`).
- Strlong.Print: leaves out the least long, whose negation overflows.
- Strtype.StringT.Copy: a longer source into a string of capacity 1 is left out, because its terminator falls outside the memory.
