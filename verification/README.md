# Asynchronous iterator core of java-async-util, modelled in Dafny

This project models the sequential bookkeeping of the package-private helper class
`AsyncIterators` of the `com.ibm.async_util.iteration` package:

- the end-of-iteration marker and end future;
- `convertSynchronousException`;
- `zipWith` on two step results;
- the stateless combinators behind `thenApply` and `thenCompose`;
- the empty iterator and the fail-once iterator behind `errorOnce`;
- the look-ahead iterator `PartiallyEagerAsyncIterator`. It prefetches up to
  `executeAhead` mapped results into a FIFO queue, guarded by a fair lock and an epoch.

Every future is modelled as already completed, so every operation becomes a pure state
transition:

- `Futures.Stage<X>` is a completed `CompletionStage<X>`: `Done(x)` or `Failed(e)`.
- `Futures.Call<X>` is a synchronous Java call that returns a value (`Returned`) or throws
  (`Threw`).
- `Steps.Step<T>` is `Either<End, T>`: `End` or `Val(t)`.
- `Steps.Outcome<T>` is a completed `CompletionStage<Either<End, T>>`.

A backing iterator is a `Sources.Source`. It holds a script of what its k-th `nextFuture`
call does, what its `close` does, and counters of the pulls and closes made so far. The
look-ahead iterator is the record `Eager.Eager`. Its fields are:

- the backing iterator;
- `executeAhead`;
- the mapping and item-close functions;
- the pending queue;
- a `terminated` flag standing for the epoch;
- `closedItems`, a log of the values handed to the item-close function.

The fair lock only serialises the bodies of the look-ahead operations, so they run
sequentially. The asynchronous `asyncWhile` driver of `nextFutureImpl` is an ordinary
recursion (`Eager.FillLoop`). It is also written as the loop it stands for
(`Eager.NextFutureLoop`). That loop terminates by the measure
`(connected ? 0 : 1) + executeAhead - |queue|`.

Main results:

- The queue never holds more than `executeAhead` entries.
- Callers receive results strictly in backing-pull order (`EagerProperties.DeliveredInBackingOrder`).
- On a fresh iterator, the first `nextFuture` makes exactly `executeAhead + 1` backing pulls
  while none of the first `executeAhead` pulls reports the end.
- `close` hands every pending value, and nothing else, to the item-close function. It
  always closes the backing iterator. It reports the epoch error, else the item-close
  error, else the backing-close error.
- A closed iterator reports the end without touching anything.

Three behaviours of the code are easy to misread; the model follows the code:

- **Filling continues after a failed pull.** The fill loop maps a failed backing pull to
  "continue" (`exceptionally(e -> true)`, AsyncIterators.java:239-242). It therefore stops
  only on the end marker or a full queue, and a failed pull is queued like any other entry.
- **A failed pending entry makes `close` fail.** Each pending entry is closed with
  `f.thenCompose(...)` (AsyncIterators.java:258-266). A failed entry makes that stage fail,
  so `allOf` (line 269) fails and close reports an item-close error
  (`EagerProperties.FailedEntryFailsClose`).
- **`nextFuture` after `close` returns the end future.** Once the epoch refuses entry,
  `nextFuture` returns `endFuture()` (AsyncIterators.java:300). The test at
  AsyncIteratorCloseTest.java:273-288 is written against a later, renamed API (`nextStage`)
  and expects an `IllegalStateException` there instead.

## Model

| member | source | states |
|---|---|---|
| Futures.ConvertSynchronousException | src/main/java/com/ibm/async_util/iteration/AsyncIterators.java:103-110 | a supplier that throws gives a failed stage carrying the thrown error; a supplier that returns a stage gives that stage unchanged |
| Futures.FirstFailure | src/main/java/com/ibm/async_util/iteration/AsyncIterators.java:277-284 | reference for close's error precedence: the result is Ok exactly when every status is Ok; otherwise it is the earliest failed status, with every earlier status Ok |
| Steps.EndMarker | src/main/java/com/ibm/async_util/iteration/AsyncIterators.java:61-63 | end() is the end marker, never a value |
| Steps.EndFuture | src/main/java/com/ibm/async_util/iteration/AsyncIterators.java:46-68 | the shared end future is already completed with the end marker |
| Steps.ZipWith | src/main/java/com/ibm/async_util/iteration/AsyncIterators.java:112-118 | the result is the end marker exactly when either input is the end marker; when both are values it is f's result wrapped as a value, or f's throw passed through |
| Steps.ZipWithEndIgnoresFunction | src/main/java/com/ibm/async_util/iteration/AsyncIterators.java:112-118 | when either input is the end marker, the result is the end marker whatever f is, so f is not consulted |
| Steps.ZipWithValueIsMap | src/main/java/com/ibm/async_util/iteration/AsyncIterators.java:112-118 | against a value u on the right, zipWith equals Either.map of the left side with f(·, u): the nested folds agree with one map |
| Sources.EmptyIterator | src/main/java/com/ibm/async_util/iteration/AsyncIterators.java:70-80 | the empty iterator answers every nextFuture, whichever call it is, with the end future; it starts with no pulls and no closes, and its close completes normally |
| Sources.EmptyAlwaysEnds | src/main/java/com/ibm/async_util/iteration/AsyncIterators.java:70-74 | every nextFuture of the empty iterator, however many are made, is the end future |
| Sources.ErrorOnce | src/main/java/com/ibm/async_util/iteration/AsyncIterators.java:323-325 | errorOnce builds a fail-once iterator that still holds the given exception |
| Sources.FailOnceNext | src/main/java/com/ibm/async_util/iteration/AsyncIterators.java:311-320 | while an exception is held, the call fails with it; with none held, the call is the end future; in both cases no exception is held afterwards |
| Sources.SpentFailOnceEnds | src/main/java/com/ibm/async_util/iteration/AsyncIterators.java:317-319 | a fail-once iterator that has reported its exception reports the end on every later call |
| Sources.ErrorOnceSequence | src/main/java/com/ibm/async_util/iteration/AsyncIterators.java:304-325 | over n calls, errorOnce(ex) fails with ex on the first call and gives the end future on every later call |
| Combinators.ThenApply | src/main/java/com/ibm/async_util/iteration/AsyncIterators.java:120-122 | building the thenApply iterator makes no pull and no close on the backing iterator |
| Combinators.ThenCompose | src/main/java/com/ibm/async_util/iteration/AsyncIterators.java:137-139 | building the thenCompose iterator makes no pull and no close on the backing iterator |
| Combinators.ApplyOutcome | src/main/java/com/ibm/async_util/iteration/AsyncIterators.java:124-128 | the result is the end marker exactly when the upstream result is; an upstream failure passes through; a value becomes f's result, or a failure with the error f throws |
| Combinators.ComposeOutcome | src/main/java/com/ibm/async_util/iteration/AsyncIterators.java:141-150 | the result is the end marker (via endFuture) exactly when the upstream result is; an upstream failure passes through; a value becomes the value of f's stage, or a failure when f throws or its stage fails |
| Combinators.EndIgnoresFunction | src/main/java/com/ibm/async_util/iteration/AsyncIterators.java:145-149 | on an upstream end marker or failure, both combinators give the same result whatever the user function is |
| Combinators.AppliedNext | src/main/java/com/ibm/async_util/iteration/AsyncIterators.java:124-128 | one downstream pull makes exactly one upstream pull and no close; a synchronous throw upstream propagates; otherwise the upstream stage is mapped |
| Combinators.ComposedNext | src/main/java/com/ibm/async_util/iteration/AsyncIterators.java:141-150 | one downstream pull makes exactly one upstream pull and no close; a synchronous throw upstream propagates; otherwise the upstream stage is composed with f |
| Combinators.AppliedClose | src/main/java/com/ibm/async_util/iteration/AsyncIterators.java:131-133 | close returns the backing iterator's close result and makes exactly one backing close and no pull |
| Combinators.ComposedClose | src/main/java/com/ibm/async_util/iteration/AsyncIterators.java:153-155 | close returns the backing iterator's close result and makes exactly one backing close and no pull |
| Combinators.AppliedDrainMatchesUpstream | src/main/java/com/ibm/async_util/iteration/AsyncIterators.java:120-135 | n downstream pulls make exactly n upstream pulls and no close; the i-th result is the i-th upstream result mapped |
| Combinators.ComposedDrainMatchesUpstream | src/main/java/com/ibm/async_util/iteration/AsyncIterators.java:137-157 | n downstream pulls make exactly n upstream pulls and no close; the i-th result is the i-th upstream result composed |
| Combinators.LazyCounting | src/test/java/com/ibm/async_util/iteration/AsyncIteratorParameterizedTest.java:512-523 | over a counting iterator, thenApply has pulled 0 times after construction, once after one pull and twice after two |
| Eager.NewEager | src/main/java/com/ibm/async_util/iteration/AsyncIterators.java:168-180 | construction keeps the backing iterator as given, without pulling; the queue is empty, the epoch is open and nothing has been closed |
| Eager.Pull | src/main/java/com/ibm/async_util/iteration/AsyncIterators.java:189-190 | a guarded backing pull is the next scripted call, with a synchronous throw turned into a failed stage; it counts exactly one pull |
| Eager.FillMore | src/main/java/com/ibm/async_util/iteration/AsyncIterators.java:183-194 | with at least executeAhead pending entries: the end future, no pull, and the state unchanged; otherwise: exactly one pull, whose result is returned, and exactly one appended entry, its mapped stage; the queue bound is preserved; the epoch, the close log and the configuration are untouched |
| Eager.AttachListener | src/main/java/com/ibm/async_util/iteration/AsyncIterators.java:197-216 | empty queue: the caller gets a fresh pull, mapped and not enqueued; otherwise: the caller gets the queue head, and a fillMore follows on the rest of the queue; the queue bound is preserved |
| Eager.FillLoop | src/main/java/com/ibm/async_util/iteration/AsyncIterators.java:226-245 | the fill loop terminates; it adds exactly one entry per backing pull; it preserves the queue bound and leaves the epoch, the close log and the configuration untouched |
| Eager.FillLoopEntries | src/main/java/com/ibm/async_util/iteration/AsyncIterators.java:226-245 | after the fill loop, the queue is the old queue followed by the mapped results of the new pulls, in pull order |
| Eager.FillLoopStops | src/main/java/com/ibm/async_util/iteration/AsyncIterators.java:239-242 | every pull the fill loop made but the last was a value or a failure (failures keep it filling); it stopped on a full queue or on an end marker from the backing iterator |
| Eager.NextFutureImpl | src/main/java/com/ibm/async_util/iteration/AsyncIterators.java:218-247 | the caller receives the queue head, or with an empty queue the mapped result of the next pull; the queue bound is preserved; nothing is closed |
| Eager.NextFutureLoop | src/main/java/com/ibm/async_util/iteration/AsyncIterators.java:218-247 | the asyncWhile loop with its connected flag (attach once, then fill while the step is not the end marker) terminates, and computes exactly what NextFutureImpl does |
| Eager.NextFuture | src/main/java/com/ibm/async_util/iteration/AsyncIterators.java:291-301 | once the epoch is terminated: the end future and the state unchanged; otherwise the queue head, or the mapped result of the next pull; the queue bound is preserved |
| Eager.ValuesOf | src/main/java/com/ibm/async_util/iteration/AsyncIterators.java:258-266 | reference for the values close hands to closeFn: a one-entry queue gives its value if it holds one and nothing otherwise; only values of the queue appear and every value of the queue appears |
| Eager.EntryClose | src/main/java/com/ibm/async_util/iteration/AsyncIterators.java:262-264 | a failed entry gives its own failure; an end entry gives success without closeFn; a value entry gives closeFn's result, a throw converted into a failure |
| Eager.ItemsClose | src/main/java/com/ibm/async_util/iteration/AsyncIterators.java:258-269 | every entry is closed, and the values handed to closeFn are ValuesOf the queue; the phase succeeds exactly when every entry's close succeeds; otherwise it reports the first failing entry's error |
| Eager.Close | src/main/java/com/ibm/async_util/iteration/AsyncIterators.java:253-288 | close terminates the epoch, closes the backing iterator exactly once, pulls nothing and keeps the queue; it logs ValuesOf the queue as closed; its result is FirstFailure of the epoch, item-close and backing-close results, in that order |
| EagerProperties.NewEagerCoherent | src/main/java/com/ibm/async_util/iteration/AsyncIterators.java:168-180 | a fresh iterator is within bounds and coherent; the first result a caller receives comes from the backing iterator's next pull |
| EagerProperties.FillLoopKeepsOrder | src/main/java/com/ibm/async_util/iteration/AsyncIterators.java:183-194 | filling keeps every queue entry equal to the mapped result of its own backing pull, oldest first, and does not move the delivery point |
| EagerProperties.AttachKeepsOrder | src/main/java/com/ibm/async_util/iteration/AsyncIterators.java:197-216 | attachListener hands the caller the mapped result of the oldest undelivered pull (FIFO poll) and advances the delivery point by one |
| EagerProperties.NextFutureInOrder | src/main/java/com/ibm/async_util/iteration/AsyncIterators.java:218-247 | on an open iterator, one nextFuture delivers the mapped result of the oldest undelivered backing pull and keeps the queue coherent |
| EagerProperties.DeliveredInBackingOrder | src/main/java/com/ibm/async_util/iteration/AsyncIterators.java:218-247 | over n consecutive nextFuture calls on an open iterator, call i receives the mapped result of backing pull Delivered + i: results arrive in backing-pull order, none skipped or repeated |
| EagerProperties.FillLoopFills | src/main/java/com/ibm/async_util/iteration/AsyncIterators.java:226-245 | when none of the pulls before the last one needed reports the end, the fill loop pulls exactly enough to fill the queue to executeAhead |
| EagerProperties.FirstNextFuturePrefetches | src/main/java/com/ibm/async_util/iteration/AsyncIterators.java:218-247 | on a fresh iterator whose first executeAhead pulls are not the end marker, the first nextFuture makes exactly executeAhead + 1 backing pulls and leaves a full queue |
| EagerProperties.FailedEntryFailsClose | src/main/java/com/ibm/async_util/iteration/AsyncIterators.java:258-280 | a failed pending entry makes the item-close phase fail, and close fails with it |
| EagerProperties.CloseSucceedsIff | src/main/java/com/ibm/async_util/iteration/AsyncIterators.java:253-288 | close succeeds exactly when the epoch terminated cleanly, every pending entry closed cleanly and the backing iterator closed cleanly |
| EagerProperties.ClosedIteratorEnds | src/main/java/com/ibm/async_util/iteration/AsyncIterators.java:291-301 | after close, any number of nextFuture calls each give the end future and leave the state (backing iterator, queue) unchanged |
| EagerProperties.ValuesOfAllValues | src/main/java/com/ibm/async_util/iteration/AsyncIterators.java:258-266 | when every pending entry holds a value, closeFn receives each entry's value exactly once, in queue order |
| EagerProperties.ValuesOfConcat | src/main/java/com/ibm/async_util/iteration/AsyncIterators.java:258-266 | the values handed to closeFn for two consecutive parts of the queue are those of the first part followed by those of the second |
| EagerProperties.ValuesOfSplit | src/main/java/com/ibm/async_util/iteration/AsyncIterators.java:258-266 | a pending entry holding value u hands u to closeFn exactly once, after the values of all earlier entries and before those of all later ones |
| EagerProperties.ValuesOfSkip | src/main/java/com/ibm/async_util/iteration/AsyncIterators.java:262-264 | a pending end marker or failure hands nothing to closeFn |
| Scenarios.AheadFiveFirstCall | asyncutil/src/test/java/com/ibm/asyncutil/iteration/AsyncIteratorCloseTest.java:251-267 | look-ahead 5 over range(0, 15) with a mapping that yields 1, 2, 3, ... in call order, one mapping call per backing pull (the counter at lines 257-261, like i -> i + 1 at line 277): the first nextFuture delivers 1 after exactly 6 backing pulls, hence 6 mapping calls, and leaves 2..6 queued |
| Scenarios.AheadFiveReachesAfterFirstCall | asyncutil/src/test/java/com/ibm/asyncutil/iteration/AsyncIteratorCloseTest.java:275-281 | after the first call of look-ahead 5 with i -> i + 1 over range(0, 15), the state has the five queued values 2..6, an open epoch, nothing closed and 6 backing pulls |
| Scenarios.AheadFiveClose | asyncutil/src/test/java/com/ibm/asyncutil/iteration/AsyncIteratorCloseTest.java:281-284 | closing after the first call succeeds and closes the backing iterator once; the later nextFuture (line 284) gives the end future without pulling, as the shown nextFuture does, where the later-API test expects an IllegalStateException |
| Scenarios.AheadFiveCloseLog | asyncutil/src/test/java/com/ibm/asyncutil/iteration/AsyncIteratorCloseTest.java:269-270 | that close hands exactly the five prefetched values 2, 3, 4, 5, 6 to the item close, each once, in queue order |

## Left out

- Executors and scheduling: `thenApplyAsync` and `thenComposeAsync` (AsyncIterators.java:127, 148-149) differ from the plain forms only in where the callback runs. With completed stages, they behave like the plain forms.
- Concurrency: overlapping `nextFuture` calls, the `FairAsyncLock` queue of waiters, and the timing of epoch-token release. `FairAsyncLock`, `ObservableEpoch` and `AsyncTrampoline` are not part of this model. The lock is dropped, the epoch is reduced to the `terminated` flag, and the trampoline is reduced to recursion and a loop.
- Eager.Close: the outcome of `epoch.terminate()` is a parameter (`epochResult`), because `ObservableEpoch` is not part of this model. Draining outstanding entries is not modelled, since calls are sequential.
- Eager.ItemsClose: `CompletableFuture.allOf` is a JDK collaborator. The model takes its error to be the leftmost failure, which is how the JDK combines futures that have already completed. The `CompletionException` wrapping it adds is not modelled; an error is identified with its cause throughout.
- `listen` (AsyncIterators.java:92-101) and `finishContainer` (83-89) are thin wrappers over `CompletableFuture` and `Collector`. `listen` appears only as "the caller receives this stage".
- `asyncWhileAsyncInitial` (AsyncIterators.java:327-332) only delegates to the trampoline.
- The `toString` methods and the identity of the single shared `ITERATION_END` object. Dafny values have no identity, so every end marker is equal.
- `AsyncIterator.java` is not part of this model. That leaves out `take`, `takeWhile`, `filter`, `fuse`, `concat`, `thenFlatten`, `range`, the public `thenApply`/`thenCompose`/`...Ahead` entry points, and the mappings they pass to `PartiallyEagerAsyncIterator`. `Scenarios.Range` and `Scenarios.PlusOne` stand in for `range` and for the mapping the tests use.
- Sources.EmptyIterator: `EmptyAsyncIterator` inherits `AsyncIterator`'s default `close`, which is not part of this model. Its close is taken to complete normally.
- `FailOnceAsyncIterator` also inherits the default `close`. It is modelled for `nextFuture` only. `Objects.requireNonNull` has no counterpart, because an `Error` value is never null.
- A synchronous throw from the backing iterator's `close`, when it reaches the thenApply/thenCompose close, is modelled as the `Call` it is: it propagates unchanged.
- The later-API test expecting `IllegalStateException` from `nextStage` after close (AsyncIteratorCloseTest.java:273-288). The model follows the shown `nextFuture`, which returns the end future.
- `SyncAsyncStampedLock` (a test adapter over `StampedLock`) and the test harness classes. The tests serve only as sources of properties.
- Java `int` arithmetic: `executeAhead` is an unbounded `int`. Only queue sizes are compared with it, so no overflow can arise. A negative value behaves like 0.
