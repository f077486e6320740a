# wasm_lite: verified models

A Dafny 4.11 project that models the parts of `wasm_lite` in which a mistake would be
hardest to see, and proves what each of them promises. `dafny verify dfyconfig.toml`
checks all of it.

* **Wakeups** (`Channel`, `ChannelInvariant`, `ChannelTheorems`, `ChannelCalls`, `SpawnJoin`,
  `Wakers`): the channel of
  `mpsc.rs`, `spawn`/`join` as its client, and `async_wait.rs` under `block_on.rs`. Each is
  a state machine whose actions are single atomic steps of the code (a load, an exchange, a
  lock, a condvar registration, a notification). A run (`Machine`) is any list of actions each
  possible in its turn, so a theorem about runs covers every interleaving of any number of threads.
* **Timers** (`TimerQueue`, `TimerDriver`, `TimerAsked`, `TimerTokens`): the native driver's heap and map
  as a class, its loop interleaved with any number of threads arming and cancelling, the
  wasm token registry across wrap-around, and sleeps split into legs.
* **Closures** (`ClosureRegistry`): the slab as a class, then every nesting of calls,
  inserts and drops over it.
* **Bindings** (`Text`, `RustTypes`, `ImportMacro`, `ImportParser`, `ImportAgreement`,
  `ExportMacro`, `ExportParser`, `ExportAgreement`, `DescriptorLanguage`, `GlueEmitter`): the macros print one line a
  binding and flatten its signature into wasm parameters; the code generator reads the lines
  back and emits JavaScript that takes or passes those parameters. What a signature *means* to
  the glue is defined once more, without any tags, and all three are proved against that.
* **The wasm reader** (`WasmGrammar`, `Utf8`, `WasmWords`, `WasmReader`, `WasmModules`,
  `WasmTheorems`): the
  grammar of the WebAssembly Core Specification 1.0 as syntax with bytes, the reader as a
  class that moves over a buffer, and proofs of what it accepts: exactly that grammar with the
  bytes left free that the reader passes over (`Readable`), and exactly when what it accepted
  is the specification's own (`Standard`).
* **Smaller algorithms** (`Ancestors`, `JsLiteral`, `HarnessRecords`, `Console`,
  `Calibration`).

Methods and classes follow the loops and fields of the source and are proved equal to
functions; the theorems are about those functions. Where a promise turns out to hold only
under a condition, the exact condition is proved and an input that breaks it is given:

* a timed wait of the timer driver will end by the deadline of every pending timer exactly if
  it begins at the very time the clock was read; after any delay there is a pending timer it
  outlasts (`TimerDriver.OversleepsOnlyByTheGap`; a run that does it:
  `TimerDriver.ADelayOversleeps`);
* after `Disconnected`, a later receive may report something else exactly if it is a timed
  one begun before the last drop has given the queue lock back, and what it reports then is a
  timeout on that lock (`ChannelTheorems.LaterReceivesExactly`; step by step,
  `ChannelTheorems.OnlyTheLockTimesOut`; a run that does it:
  `ChannelTheorems.ATimedReceiveCanTimeOutAfterTheEnd`);
* an `import!` the macro accepts is refused by the code generator exactly when its return
  type does not fit its kind (`ImportAgreement.LinkedSectionReadsBack`; a binding that is:
  `ImportAgreement.AUnitGetterIsAcceptedThenRefused`);
* `#[export]` accepts a name that JavaScript cannot declare as a function in a module exactly
  if it is `eval` or `arguments` (`ExportAgreement.AcceptedExactly`,
  `ExportAgreement.AcceptedNamesDeclareExactly`; a function so named:
  `ExportAgreement.EvalIsAccepted`). The comment at crates/wasm_lite_macro/src/export.rs:143-145
  says the glue declares it so; the glue at
  crates/wasm_lite_codegen/src/generate/export.rs:198-208 exports it under a quoted name, which
  may be any;
* an integer in an imported function's optional argument arrives in JavaScript with its value
  exactly if it is not in the upper half of a `u64`; any other integer argument always does
  (`ImportShims.OptionalIntegersArriveExactly`, `ImportShims.IntegersArrive`; a value that does
  not: `ImportShims.AnOptionalU64ArrivesNegative`);
* a call through the id of a dropped closure is a no-op exactly as long as no other closure,
  undropped and not running, has that id (`ClosureCalls.AStaleIdIsNoOpExactly`; a run in which
  one has: `ClosureCalls.AStaleIdCanRunANewcomer`). The comment at
  crates/wasm_lite/src/closure.rs:386-388 says more than that;
* a `should_panic` message comes back exactly if it does not end in a carriage return
  (`HarnessRecords.RoundTripExactlyWithoutCr`; one that does:
  `HarnessRecords.ACarriageReturnIsLost`);
* a module whose imported functions can be read can have its imported memory read exactly if
  it has one import section at most, nothing after its list, and one memory at most
  (`WasmTheorems.MemoryFollowsFunctionsExactly`; bytes that have not:
  `WasmTheorems.MemoryNeedNotFollowFunctions`);
* an import entry the reader accepts is one of section 5.5.5 exactly if its table type, value
  type and mutability bytes are ones the specification allows, and a custom section it accepts
  is one of section 5.5.3 exactly if its name is UTF-8 (`WasmTheorems.EntryIsStandardExactly`,
  `WasmTheorems.CustomIsStandardExactly`; bytes that are not: `WasmTheorems.ALooseEntryIsRead`,
  `WasmTheorems.ALooseCustomIsRead`);
* reading the console again at the cursor just returned gives nothing exactly if the 64-bit
  counter has not wrapped since the oldest record held
  (`Console.RereadGivesNothingExactly`; a history where it has:
  `Console.AWrapGivesRecordsTwice`).

## Model

| member | source | states |
|---|---|---|
| ChannelInvariant.StepKeepsInv | crates/wasm_lite_std/src/mpsc.rs:53-485 | No step of any sender, dropper or receiver breaks the invariant: lock ownership, the count, the two halves of the wakeup argument, the ledger of calls and values, order, and finality of the end |
| ChannelTheorems.NeverLosesAWakeup | crates/wasm_lite_std/src/mpsc.rs:53-69 | In every interleaving, a receiver parked un-notified has an empty queue or a sender between its push and its notification, and a positive count or a last drop that has yet to notify |
| ChannelTheorems.TheNotifierCanStep | crates/wasm_lite_std/src/mpsc.rs:263-275 | That sender or drop is not itself blocked: its next step is possible now |
| ChannelTheorems.AReceiveWithNewsReturns | crates/wasm_lite_std/src/mpsc.rs:411-422 | With a value queued or the end reached, every step of a running receive brings it closer to returning, nobody else moves it or takes the news away, and it, the holder of the lock, or the one about to notify it can step |
| ChannelTheorems.UnlockedDropLosesTheWakeup | crates/wasm_lite_std/src/mpsc.rs:58-66 | Without taking the lock before notifying, a run ends with the receiver parked, no handle left, and no action possible but a spurious return or giving up |
| ChannelTheorems.UnlockedDropIsUnseen | crates/wasm_lite_std/src/mpsc.rs:58-66 | The window the lock closes: count read as positive, last drop done, registration still to come |
| ChannelTheorems.ChannelIsAQueue | crates/wasm_lite_std/src/mpsc.rs:215-312 | At every step, values pushed are values received followed by the queue, and values received are those the receive calls returned or are about to |
| ChannelTheorems.EveryValueIsInOnePlace | crates/wasm_lite_std/src/mpsc.rs:215-290 | The value of each call is, once, in exactly one of received, queued, handed back by its own call, still being sent, or abandoned with its future |
| ChannelTheorems.ArrivesUnchangedAndInOrder | crates/wasm_lite_std/src/mpsc.rs:215-312 | A received value is the one its call was given, and one thread's values arrive in the order of its calls |
| ChannelTheorems.CountIsHandlesAndZeroIsForever | crates/wasm_lite_std/src/mpsc.rs:53-78 | `sender_count` is the number of handles that have yet to decrement it, and no step leaves zero |
| ChannelTheorems.DisconnectedIsLosslessAndFinal | crates/wasm_lite_std/src/mpsc.rs:295-485 | When a receive reports `Disconnected`, every accepted value was returned by an earlier receive, and every later one reports it too, or a timeout on the lock |
| ChannelTheorems.OnlyTheLockTimesOut | crates/wasm_lite_std/src/mpsc.rs:329-352 | After a report of `Disconnected`: giving up on the lock is possible if and only if a timed receive is acquiring it while the last drop holds it, and any other step that reports anything reports `Disconnected` |
| ChannelTheorems.LaterReceivesExactly | crates/wasm_lite_std/src/mpsc.rs:295-485 | A receive begun after that, in any mode and whatever others do meanwhile, may report other than `Disconnected` if and only if it is timed and begins before the last drop has given the lock back, and that is a timeout; no other receive is affected |
| ChannelTheorems.ATimedReceiveCanTimeOutAfterTheEnd | crates/wasm_lite_std/src/mpsc.rs:329-346 | That exception happens: a run that reports `Disconnected`, then a timeout |
| ChannelCalls.AReceiveAnswersItsMode | crates/wasm_lite_std/src/mpsc.rs:295-485 | In every interleaving, a receive reports once at the most; one begun as `try_recv` reports a value, the end or `Empty`; an untimed one a value or the end; a timed one a value, the end or a timeout |
| ChannelCalls.TryNeverWaits | crates/wasm_lite_std/src/mpsc.rs:295-310 | In every reachable state the receive under way is in the mode it was begun in, and none begun as `try_recv` is waiting, about to wait, or back from a wait |
| ChannelCalls.AnAnswerIsWhatWasFound | crates/wasm_lite_std/src/mpsc.rs:299-325 | Every answer is settled on with the lock held and is true then: a value is the oldest queued and leaves the queue, the end means an empty queue and a count of zero, `Empty` an empty queue and a positive count |
| ChannelCalls.AReceiveAlone | crates/wasm_lite_std/src/mpsc.rs:295-325 | A receive nobody disturbs comes back with the oldest value, else with the end, else, as `try_recv`, with `Empty`; else it parks, registered |
| ChannelCalls.AWaitAlone | crates/wasm_lite_std/src/mpsc.rs:326-352 | A wait that ran out is reported as a timeout; one that ended otherwise looks again, with the same outcomes |
| ChannelCalls.ASendAlone | crates/wasm_lite_std/src/mpsc.rs:215-290 | A send nobody disturbs, with the receiver there, queues its value last and notifies a waiting receiver; without, its first step gives its value back |
| ChannelCalls.ACloneStandsIn | crates/wasm_lite_std/src/mpsc.rs:53-78 | Cloning a handle and dropping the original leaves the count as it was, and the clone can send |
| ChannelCalls.OnlyTheLookedPush | crates/wasm_lite_std/src/mpsc.rs:215-229 | Once the receiver is gone, in every interleaving, one more value is pushed at the most: that of the caller past its second look and holding the lock |
| ChannelCalls.AcceptedLateHadLooked | crates/wasm_lite_std/src/mpsc.rs:215-229 | A call is accepted after the drop only if it was that caller |
| ChannelCalls.ALateSendIsRefused | crates/wasm_lite_std/src/mpsc.rs:215-229 | A send begun when the receiver is gone is never pushed; its first step refuses it, with its own value |
| ChannelCalls.RefusedOnlyWhenGone | crates/wasm_lite_std/src/mpsc.rs:215-229 | No send is refused while the receiver is there |
| SpawnJoin.JoinGetsTheResult | crates/wasm_lite_std/src/stdlib.rs:102-115 | Used as `spawn` and `join` use it, the receive of `join` can return nothing but the value the thread sent, so its `expect` never fires |
| SpawnJoin.JoinRuns | crates/wasm_lite_std/src/stdlib.rs:249-279 | What every run of that client keeps: one send that runs to its end before the handle drops, one untimed receive |
| Wakers.RunKeepsInv | crates/wasm_lite_std/src/block_on.rs:64-112 | In every interleaving of the polling thread, the waking thread and any other wakers: between polls the wake is still to come, on its way, or in the sticky flag |
| Wakers.AWakeThatReturnedTrueIsSeen | crates/wasm_lite_std/src/async_wait.rs:44-91 | Once `wake` has returned true, the polling thread is not asleep waiting for a notification |
| Wakers.ExactlyOneExchangeWins | crates/wasm_lite_std/src/async_wait.rs:49-101 | Once both have run, exactly one of the two compare-exchanges succeeded, and the result of `wake` and the state say which |
| Wakers.AfterTheWakeThePollFinishes | crates/wasm_lite_std/src/block_on.rs:96-112 | From then on each step of the polling thread brings it closer to `Ready`, nobody's step takes it further away, and some step towards it is always possible |
| Wakers.AWakeReturns | crates/wasm_lite_std/src/async_wait.rs:49-62 | `wake` always returns: each of its steps brings it closer, nobody else moves it, and it or the holder of the mutex can step |
| Wakers.EachPollIsWoken | crates/wasm_lite_std/src/block_on.rs:96-112 | The future is polled again no oftener than somebody raised the flag: the flag goes down with each poll |
| TimerQueue.Queue.Arm | crates/wasm_lite_std/src/sleep.rs:263-272 | The locked part of `arm`: the map gains the wake, the heap one entry; with a new id, heap and map stay in agreement |
| TimerQueue.Queue.Cancel | crates/wasm_lite_std/src/sleep.rs:274-285 | Removes the id from the map alone, says whether it was there, and keeps the agreement |
| TimerQueue.Queue.Round | crates/wasm_lite_std/src/sleep.rs:288-320 | One round of the driver, stale entries popped first, decides and leaves behind what the specification says, and keeps the agreement |
| TimerQueue.HeapPushSorts | crates/wasm_lite_std/src/sleep.rs:269-269 | A push keeps the entries in pop order |
| TimerQueue.ArmAgrees | crates/wasm_lite_std/src/sleep.rs:263-272 | Arming keeps heap and map in agreement: one entry an id, one for every pending timer, at its deadline |
| TimerQueue.RoundAgrees | crates/wasm_lite_std/src/sleep.rs:288-320 | So does a round, whatever it pops and removes |
| TimerQueue.DecideIsEarliest | crates/wasm_lite_std/src/sleep.rs:291-315 | Said of the pending timers alone: it waits for ever only if there are none, until the earliest deadline otherwise, and fires only the earliest, of several the one armed first, only when due |
| TimerDriver.RunKeepsInv | crates/wasm_lite_std/src/sleep.rs:263-320 | What every interleaving of arming, cancelling and the driver keeps |
| TimerDriver.NeverOversleeps | crates/wasm_lite_std/src/sleep.rs:298-310 | While the driver waits un-notified: an untimed wait means nothing is pending, a timed wait ends by every pending deadline plus the gap between clock read and wait |
| TimerDriver.OversleepsOnlyByTheGap | crates/wasm_lite_std/src/sleep.rs:303-309 | For every run, when a timed wait is about to begin: it will end by the deadline of every timer then pending if and only if no time has passed since the clock was read; otherwise it outlasts the timer whose deadline it waits for, which is still pending |
| TimerDriver.ADelayOversleeps | crates/wasm_lite_std/src/sleep.rs:303-309 | A run in which the driver waits past a pending deadline |
| TimerDriver.EachTimerIsInOnePlace | crates/wasm_lite_std/src/sleep.rs:263-320 | Every timer that reached the queue is pending, fired or cancelled, one of these only; a pending one has exactly one heap entry, with its deadline |
| TimerDriver.LeavesOnceAndOnTime | crates/wasm_lite_std/src/sleep.rs:274-320 | A timer never returns to `pending`; its cancellation takes it out, and what takes it out is that or a round at or after its deadline |
| TimerDriver.WakesExactlyTheFired | crates/wasm_lite_std/src/sleep.rs:312-318 | Wakes go to fired timers only, once each, never before the deadline, never to a cancelled one; every fired timer is woken or next to be |
| TimerDriver.ADueTimerFires | crates/wasm_lite_std/src/sleep.rs:298-318 | With a timer due, a round fires the earliest rather than sleep |
| TimerAsked.ArmedForTheDurationAsked | crates/wasm_lite_std/src/sleep.rs:263-272 | Over every run: the id of a timer is the number of its `arm`, its deadline the duration asked for counted from when that call read the clock, its wake the one handed in |
| TimerAsked.NeverWokenEarly | crates/wasm_lite_std/src/sleep.rs:263-320 | So no timer is fired or woken before its start plus its duration, and the wake called is the one handed in |
| TimerAsked.AnArmAlone | crates/wasm_lite_std/src/sleep.rs:263-272 | An `arm` nobody disturbs leaves its timer pending at now plus its duration with its wake, and no driver asleep |
| TimerAsked.ACancelAlone | crates/wasm_lite_std/src/sleep.rs:274-285 | A cancellation nobody disturbs takes out its timer alone and has a sleeping driver look again |
| TimerTokens.FreeTokenExists | crates/wasm_lite_std/src/sleep.rs:138-145 | A nonzero token is free if and only if fewer than 2^32 - 1 timers are live |
| TimerTokens.SomeTurnIsFree | crates/wasm_lite_std/src/sleep.rs:138-145 | Then one full turn of the wrapping counter, from anywhere, meets a free token |
| TimerTokens.Registry.Register | crates/wasm_lite_std/src/sleep.rs:135-146 | The drawing loop ends, with the first token from the counter on that is neither zero nor live, and adds just that timer |
| TimerTokens.Registry.Take | crates/wasm_lite_std/src/sleep.rs:180-187 | Hands out the wake of the token, if any, and leaves all others registered |
| TimerTokens.TakenOut | crates/wasm_lite_std/src/sleep.rs:180-187 | `swap_remove` takes out one entry and, whatever it reorders, loses no other |
| TimerTokens.TakeTwice | crates/wasm_lite_std/src/sleep.rs:167-187 | A second take of a token finds nothing |
| TokenRuns.EachWakeIsHandedOutOnce | crates/wasm_lite_std/src/sleep.rs:135-187 | Over any life of the registry, tokens reused at will: each registered wake is handed out at most once, and until then is live under exactly one token |
| TokenRuns.Drive | crates/wasm_lite_std/src/sleep.rs:135-187 | A new registry called in any order goes through one of those runs, until a registration with every token live: after any list of calls its map is the run's live timers, what it hands out is what the run hands out, and nothing twice |
| SleepLegs.SleepAsync.constructor | crates/wasm_lite_std/src/sleep.rs:76-82 | The first leg and the rest add up to the duration asked for |
| SleepLegs.SleepAsync.Poll | crates/wasm_lite_std/src/sleep.rs:87-104 | With inner timers that are never early, a poll moves on through ready legs, ends, and is ready only when all legs are done, no earlier than the whole duration after the start |
| SleepLegs.SleepsAtLeast | crates/wasm_lite_std/src/sleep.rs:87-104 | If no leg fires early and each is armed after the one before, the chain lasts at least the sum |
| SleepLegs.LegsAreTheLongestTaken | crates/wasm_lite_std/src/sleep.rs:45-104 | Every leg is a number of milliseconds that a signed 32-bit timeout holds, and every leg but the last the longest such |
| ClosureRegistry.Registry.Insert | crates/wasm_lite/src/closure.rs:46-58 | Fills the last freed slot or a new one, returns that index as a `u32`, and keeps the free list exactly the vacant slots |
| ClosureRegistry.Registry.BorrowOut | crates/wasm_lite/src/closure.rs:61-72 | Takes a filled slot's value and marks the slot; any other state is left as it was; the free list stays right |
| ClosureRegistry.Registry.GiveBack | crates/wasm_lite/src/closure.rs:75-87 | Refills the slot, or frees it if it was dropped meanwhile; the free list stays right if and only if the slot was not vacant |
| ClosureRegistry.Registry.Remove | crates/wasm_lite/src/closure.rs:89-104 | Frees a filled slot, marks a running one, leaves the rest; the free list stays right |
| ClosureRegistry.LastFreedFirstUsed | crates/wasm_lite/src/closure.rs:46-58 | Freed slots are reused last first, and filled with the new values; with none free a new slot is made at the end |
| ClosureCalls.RunKeepsInv | crates/wasm_lite/src/closure.rs:22-127 | What every nesting of calls, inserts and drops keeps |
| ClosureCalls.SlabAndStackAgree | crates/wasm_lite/src/closure.rs:22-104 | The free list has no duplicates and is exactly the empty slots; borrowed and dropped slots are exactly the ids on the call stack, once each; the next insert's id is not on the stack |
| ClosureCalls.EveryClosureIsInOnePlace | crates/wasm_lite/src/closure.rs:46-127 | Every closure ever made is in its own slot, on the stack, or destroyed: exactly one, and always under the id it was given |
| ClosureCalls.ACallRunsOnlyTheUndropped | crates/wasm_lite/src/closure.rs:61-72 | What a call would run has an owner that was not dropped, and its own id |
| ClosureCalls.OnceGoneAlwaysGone | crates/wasm_lite/src/closure.rs:379-390 | After its drop a closure never fills a slot again, and once destroyed stays so |
| ClosureCalls.TheUndroppedStaysCallable | crates/wasm_lite/src/closure.rs:61-87 | Held or forgotten, a closure is callable by its id unless it is itself running, when the inner call does nothing |
| ClosureCalls.DroppedMidCallLivesUntilReturn | crates/wasm_lite/src/closure.rs:75-87 | A closure dropped while running is destroyed, and its slot freed, by that call's return and not before |
| ClosureCalls.AStaleIdIsNoOpExactly | crates/wasm_lite/src/closure.rs:379-390 | A call through a dropped closure's id changes nothing if and only if no other closure, undropped and not running, has that id |
| ClosureCalls.AStaleIdCanRunANewcomer | crates/wasm_lite/src/closure.rs:46-58 | A run in which a call through a dropped closure's id runs another closure |
| ImportMacro.ExpandFn | crates/wasm_lite_macro/src/import.rs:277-481 | The parameter loop of `build_fn` produces the parameters and the line of the specification, or its error |
| ImportMacro.Expand | crates/wasm_lite_macro/src/import.rs:244-275 | All strings of an invocation are checked first, then all bindings built in order, up to the first error |
| ImportParser.Parse | crates/wasm_lite_codegen/src/descriptor.rs:271-341 | The reader's loop is line by line, skipping empty lines, stopping at the first bad one |
| ImportAgreement.ArgAgrees | crates/wasm_lite_macro/src/import.rs:286-375 | For every type: accepted as an argument exactly if it has a meaning; its tag is read back as that; each wasm parameter it declares is of the kind that crosses there for the tag (address, length, table index, Number, BigInt) |
| ImportAgreement.AllSlotsAreCounted | crates/wasm_lite_codegen/src/descriptor.rs:222-236 | What crosses for a parsed argument list, slot by slot, is as long as the reader's summed counts |
| ImportAgreement.RetAgrees | crates/wasm_lite_macro/src/import.rs:497-700 | For every return type: the same, and a return buffer exactly for the three kinds read as `Opt`, `Res` and `ResOpt` |
| ImportAgreement.ArgsAgree | crates/wasm_lite_macro/src/import.rs:286-375 | The same for every argument list |
| ImportAgreement.ShapeIsTheReturn | crates/wasm_lite_codegen/src/descriptor.rs:349-455 | For a binding the macro accepted, the reader's shape check is a condition on the return type alone |
| ImportAgreement.LineReadsBack | crates/wasm_lite_macro/src/import.rs:470-480 | The printed line is read back as exactly the binding's meaning, or refused if its return does not fit its kind |
| ImportAgreement.TheLineIsTheSignature | crates/wasm_lite_macro/src/import.rs:434-480 | Of an accepted line, from the signature alone: the JavaScript name is the one after `as`, else the function's without `r#`; namespace, import symbol and variadic flag are those written; the kind is the attribute's, else method exactly for a first `this: &JsValue` |
| ImportAgreement.AcceptedExactly | crates/wasm_lite_macro/src/import.rs:277-445 | A binding is accepted if and only if its strings are non-empty without a bar or control character, its types have a meaning, its signature is what its attribute asks for, and it is variadic only as a function, method or constructor |
| ImportAgreement.ARefusalIsTrue | crates/wasm_lite_macro/src/import.rs:277-445 | What the error of a refused binding says is so |
| ImportAgreement.WritableExactlyWhenMutable | crates/wasm_lite_macro/src/import.rs:286-375 | A parameter is a writable pointer exactly for `&mut` slices of numbers, optional or not |
| RustTypes.ClassesAre | crates/wasm_lite_macro/src/ty.rs:32-103 | Each class of types the macros and the meaning share is certain types written out and no others |
| RustTypes.NumbersAre | crates/wasm_lite_macro/src/ty.rs:106-143 | So are the numeric types and slices |
| RustTypes.GenericsAre | crates/wasm_lite_macro/src/ty.rs:170-211 | And the one and two arguments of a generic |
| ImportLanguage.ImportReadsExactly | crates/wasm_lite_codegen/src/descriptor.rs:271-455 | The reader takes any text for a descriptor if and only if it is one of the ways to write that descriptor, which must be one the glue can emit |
| ImportAgreement.SignatureAgrees | crates/wasm_lite_macro/src/import.rs:277-481 | The wasm import declares, in order, exactly the parameters that cross for the parsed binding, as many as the reader counts, one address in front exactly if the parsed return needs a buffer; and its result is what crosses back |
| ImportAgreement.SectionReadsBack | crates/wasm_lite_codegen/src/descriptor.rs:271-341 | For any list of bindings one `import!` accepts: all their meanings in order, or a refusal, exactly by whether all returns fit |
| ImportAgreement.LinkedSectionReadsBack | crates/wasm_lite_macro/src/import.rs:257-270 | The same for the text of any number of invocations in any modules, as the linker concatenates it |
| ImportAgreement.AUnitGetterIsAcceptedThenRefused | crates/wasm_lite_codegen/src/descriptor.rs:349-455 | A getter returning `()` passes the macro and is refused by the reader |
| ImportShims.EmitArguments | crates/wasm_lite_codegen/src/generate/shim.rs:20-116 | The argument loop of `emit_shim` makes the receiver and arguments of the specification and takes as many parameters |
| ImportShims.ParsedShapesHaveTheirParts | crates/wasm_lite_codegen/src/generate/shim.rs:112-170 | For every line that parses: there is a receiver, made of the first parameter, exactly if the kind is not function, constructor or static getter; all other arguments are passed on; and every argument looked up by position is there, and no other |
| ImportShims.ShimTakesWhatIsDeclared | crates/wasm_lite_codegen/src/generate/shim.rs:20-116 | For every binding the macro accepts: the emitted shim takes as many parameters as the wasm import declares after the buffer, uses each exactly once and in turn, and each as what its declared type delivers |
| ImportShims.ArrivesAsItsType | crates/wasm_lite_codegen/src/generate/shim.rs:34-108 | Through macro, line, reader and shim, an argument of any accepted type arrives as what its type says: string, byte view, typed view of its element, object, objects, boolean or number, or maybe that |
| ImportShims.IntegersArrive | crates/wasm_lite_codegen/src/generate/shim.rs:55-70 | Every integer argument arrives with its value, though wasm integers reach JavaScript signed |
| ImportShims.OptionalIntegersArriveExactly | crates/wasm_lite_codegen/src/generate/shim.rs:72-90 | In an `Option`, if and only if it is not in the upper half of a `u64` |
| ImportShims.AnOptionalU64ArrivesNegative | crates/wasm_lite_codegen/src/generate/shim.rs:79-88 | One that is arrives negative |
| ExportMacro.Expand | crates/wasm_lite_macro/src/export.rs:106-262 | The argument loop of `build_export` produces the parameters and the line of the specification, or its first error, patterns and `self` receivers refused where they stand |
| ExportParser.Parse | crates/wasm_lite_codegen/src/exports.rs:139-185 | The reader's loop, as for imports |
| ExportAgreement.ArgAgrees | crates/wasm_lite_macro/src/export.rs:176-229 | For every type: accepted exactly if it has a meaning, its tag read back as that, its parameters slot by slot what crosses for that tag |
| ExportAgreement.RetAgrees | crates/wasm_lite_macro/src/export.rs:287-384 | For every return type: the same, and a leading pointer exactly for `Opt` and `Res` |
| ExportAgreement.LineReadsBack | crates/wasm_lite_codegen/src/exports.rs:139-211 | Every signature the macro accepts prints a line the reader accepts as that signature |
| ExportAgreement.TheLineIsTheSignature | crates/wasm_lite_macro/src/export.rs:139-142 | The line is read back as the function's name without `r#` and the meanings of its types |
| ExportAgreement.AcceptedExactly | crates/wasm_lite_macro/src/export.rs:106-262 | A function is accepted if and only if it is not async, generic or unsafe, its name is one ECMA-262 lets a module declare or `eval` or `arguments`, it is no name of the glue's, and its types have a meaning |
| ExportAgreement.AcceptedNamesDeclareExactly | crates/wasm_lite_macro/src/export.rs:13-66 | An accepted name can be declared in a module if and only if it is neither `eval` nor `arguments` |
| ExportAgreement.EvalIsAccepted | crates/wasm_lite_macro/src/export.rs:13-66 | A function named `eval` is accepted |
| ExportAgreement.ARefusalIsTrue | crates/wasm_lite_macro/src/export.rs:106-262 | What the error of a refused function says is so |
| ExportAgreement.OnlyPlainReferences | crates/wasm_lite_macro/src/export.rs:75-99 | Borrowed text and bytes, optional or not, are accepted behind `&` alone, not `&'static` or `&mut` |
| ExportLanguage.ReadsExactly | crates/wasm_lite_codegen/src/exports.rs:139-211 | The reader takes any text for an export if and only if it is one of the ways to write that export |
| ExportAgreement.SignatureAgrees | crates/wasm_lite_macro/src/export.rs:171-238 | The flattened parameters are, in order, exactly what crosses for the parsed tags, plus one leading address exactly for `Opt` and `Res` returns; and the wasm result is what crosses back |
| ExportAgreement.AcceptedExactlyWhenMeaningful | crates/wasm_lite_macro/src/export.rs:106-262 | A function with a usable name is accepted if and only if its signature has a meaning |
| ExportAgreement.SectionReadsBack | crates/wasm_lite_macro/src/ty.rs:217-220 | The section of any number of exports is read back as their signatures, in order; nothing accepted is refused later |
| ExportWrappers.EmitCall | crates/wasm_lite_codegen/src/generate/export.rs:19-93 | The argument loop of `emit_export`, with the buffer `sret_call` puts in front, passes the list of the specification |
| ExportWrappers.EachFromItsOwn | crates/wasm_lite_codegen/src/generate/export.rs:19-93 | Each wasm argument is made of the caller's argument in whose place it is |
| ExportWrappers.WrapperPassesWhatIsDeclared | crates/wasm_lite_codegen/src/generate/export.rs:19-93 | For every export the macro accepts: the emitted wrapper passes exactly the parameters the entry point declares, in order, each of the kind its declared type takes |
| Text.SplitJoin | crates/wasm_lite_codegen/src/descriptor.rs:281-281 | Splitting on a separator undoes joining with it, when no part holds it |
| Text.LinesOfTerminated | crates/wasm_lite_codegen/src/descriptor.rs:276-279 | `lines` undoes writing lines with their newlines, but for a carriage return at a line's end |
| Text.JoinSplit | crates/wasm_lite_codegen/src/descriptor.rs:281-281 | Joining undoes splitting, and no piece holds the separator |
| WasmReader.LebIsTheGrammar | crates/wasm_lite_codegen/src/wasm.rs:305-326 | `leb_u32` returns a value and stops at a place if and only if the bytes between spell that value in the u32 grammar of section 5.2.2, padded or not |
| WasmReader.LebSound | crates/wasm_lite_codegen/src/wasm.rs:305-326 | Whatever is accepted is in the grammar |
| WasmReader.LebComplete | crates/wasm_lite_codegen/src/wasm.rs:305-326 | Every spelling, wherever it stands in a buffer, is accepted with its value |
| WasmWords.OrIsPlus | crates/wasm_lite_codegen/src/wasm.rs:309-317 | On 32-bit words, below the weight of the next bits, `\|` and `<<` are the sum and the product, lose nothing, and stay below the weight after; the loop keeps that bound and uses this at every byte |
| WasmWords.PayloadIs | crates/wasm_lite_codegen/src/wasm.rs:310-317 | The masks on a byte give its value modulo 128 and whether it is 128 or more |
| WasmGrammar.EveryU32IsSpelled | crates/wasm_lite_codegen/src/wasm.rs:305-326 | Every 32-bit number has a spelling |
| WasmGrammar.SpellingsFitInU32 | crates/wasm_lite_codegen/src/wasm.rs:305-326 | Every spelling stands for a 32-bit number |
| Utf8Encoding.Utf8Exactly | crates/wasm_lite_codegen/src/wasm.rs:262-268 | Bytes are taken for UTF-8 if and only if they are the encoding, by arithmetic, of some sequence of code points |
| WasmReader.Reader.LebU32 | crates/wasm_lite_codegen/src/wasm.rs:305-326 | The loop on a 32-bit word computes what the recursive specification says, moves as far, and fails with the same error |
| WasmReader.Reader.Header | crates/wasm_lite_codegen/src/wasm.rs:235-243 | Magic, then version, each with its own error |
| WasmReader.Reader.ReadName | crates/wasm_lite_codegen/src/wasm.rs:262-268 | A length and that many bytes, which must be UTF-8 |
| WasmReader.Reader.ReadLimits | crates/wasm_lite_codegen/src/wasm.rs:273-289 | The flag bits, the numbers they announce, and the three ways limits are refused |
| WasmReader.Reader.SkipLimits | crates/wasm_lite_codegen/src/wasm.rs:292-302 | The same for a table, whose values are not kept |
| WasmModules.CustomSections | crates/wasm_lite_codegen/src/wasm.rs:15-36 | The section walk equals its specification |
| WasmModules.ParseImportsForMemory | crates/wasm_lite_codegen/src/wasm.rs:83-123 | So does the scan of an import section for its memory |
| WasmModules.ImportedMemoryIn | crates/wasm_lite_codegen/src/wasm.rs:60-81 | And the walk around it, which refuses a second import section |
| WasmModules.ImportedFunctionsIn | crates/wasm_lite_codegen/src/wasm.rs:130-170 | And the walk that lists functions, with its own copy of the entry reader |
| WasmTheorems.CustomSectionsReadBack | crates/wasm_lite_codegen/src/wasm.rs:15-36 | On the encoding of any section list, every size padded in any way and custom names any bytes: exactly the payloads of that name, in module order |
| WasmTheorems.CustomSectionsAcceptExactly | crates/wasm_lite_codegen/src/wasm.rs:15-36 | Any bytes are accepted if and only if they are such an encoding, to the last byte |
| WasmTheorems.CustomIsStandardExactly | crates/wasm_lite_codegen/src/wasm.rs:26-33 | A custom section that is accepted is one of section 5.5.3 if and only if its name is UTF-8 |
| WasmTheorems.ALooseCustomIsRead | crates/wasm_lite_codegen/src/wasm.rs:26-33 | Two bytes that are accepted as a custom section and are none of the specification |
| WasmTheorems.LimitsComplete | crates/wasm_lite_codegen/src/wasm.rs:273-302 | Limits written as section 5.3.4 and the threads proposal have it are read back |
| WasmTheorems.LimitsSound | crates/wasm_lite_codegen/src/wasm.rs:273-289 | Memory limits that are accepted are valid: no unknown flag, a maximum if shared, not below the minimum |
| WasmTheorems.EntryComplete | crates/wasm_lite_codegen/src/wasm.rs:87-117 | Any import of section 5.5.5, and any that differs from one only in the bytes of a table's type or a global's type and mutability, is read back, wherever it stands |
| WasmTheorems.EntrySound | crates/wasm_lite_codegen/src/wasm.rs:87-117 | Any entry that is accepted is an import of that wider kind |
| WasmTheorems.EntryIsStandardExactly | crates/wasm_lite_codegen/src/wasm.rs:87-117 | An entry that is accepted is an import of section 5.5.5 if and only if a table's type is `funcref`, a global's type one of the four value types and its mutability 0 or 1 |
| WasmTheorems.ALooseEntryIsRead | crates/wasm_lite_codegen/src/wasm.rs:113-116 | Five bytes that are accepted as an import of a global and are none of the specification |
| WasmTheorems.MemoryAmongComplete | crates/wasm_lite_codegen/src/wasm.rs:83-123 | Any list of imports yields its memory, or the refusal of a second one |
| WasmTheorems.ImportsReadBack | crates/wasm_lite_codegen/src/wasm.rs:60-170 | On any module whose import sections begin with import lists: its functions in order; and its memory, if and only if there is one import section at most, nothing after its list and one memory at most |
| WasmTheorems.MemoryReaderAcceptsExactly | crates/wasm_lite_codegen/src/wasm.rs:60-123 | `imported_memory` accepts any bytes if and only if they encode such a module with one memory at most to find |
| WasmTheorems.FunctionsReaderAcceptsExactly | crates/wasm_lite_codegen/src/wasm.rs:130-170 | `imported_functions` accepts any bytes if and only if they encode a module whose import sections begin with import lists |
| WasmTheorems.FunctionsFollowMemory | crates/wasm_lite_codegen/src/wasm.rs:130-170 | Whenever `imported_memory` accepts, so does `imported_functions` |
| WasmTheorems.MemoryFollowsFunctionsExactly | crates/wasm_lite_codegen/src/wasm.rs:60-123 | Where the functions are read, the memory is read if and only if the module has one import section at most, nothing after its list, and one memory at most |
| WasmTheorems.MemoryNeedNotFollowFunctions | crates/wasm_lite_codegen/src/wasm.rs:119-122 | Twelve bytes that only the functions reader accepts |
| Ancestors.BuildRev | docs/analyze.py:86-89 | The reversed graph has an edge exactly where the dependency graph has one the other way |
| Ancestors.Find | docs/analyze.py:90-97 | The worklist ends on every finite graph, cycles included, and collects exactly the crates with a path of one edge or more to a seed |
| Ancestors.Ancestors | docs/analyze.py:86-98 | Both together, on the dependency graph |
| Ancestors.ClosedTakesAll | docs/analyze.py:90-97 | A set closed under listing a seed or a member holds the start of every path to a seed |
| JsString.Write | crates/wasm_lite_codegen/src/generate.rs:116-134 | The loop writes the quoted form of the specification |
| JsString.LiteralReadsBack | crates/wasm_lite_codegen/src/generate.rs:116-134 | For every string and whatever follows, a lexer for section 12.9.4 of ECMA-262 (2023) reads the literal as that string and stops exactly after it |
| JsString.LiteralIsOneLine | crates/wasm_lite_codegen/src/generate.rs:116-134 | No literal has a line terminator of ECMA-262 or a control character in it |
| JsString.EscapedReadsBack | crates/wasm_lite_codegen/src/generate.rs:119-131 | Each character's form is read as that character, in front of anything |
| JsString.Utf16IsInjective | crates/wasm_lite_codegen/src/generate.rs:116-134 | No two strings have the same JavaScript value |
| HarnessRecords.ReadVerdict | crates/wasm_lite_macro/src/lib.rs:499-509 | The attribute loop: the last `should_panic` counts, a refused message refuses the case |
| HarnessRecords.VerdictIs | crates/wasm_lite_macro/src/lib.rs:499-509 | Without the loop: a case is refused exactly for a message with a tab or a newline, ignored exactly if one attribute says so, and expects what the last `should_panic` says |
| HarnessRecords.AcceptedIsWritten | crates/wasm_lite_macro/src/lib.rs:570-579 | What any accepted attribute list makes the macro write holds no tab or newline |
| HarnessRecords.Decls | crates/wasm_lite_codegen/src/lib.rs:356-390 | The three nested loops of the reader compute the specification |
| HarnessRecords.LineReadsBack | crates/wasm_lite_macro/src/lib.rs:511-527 | One record is read back as its path, ignore flag and expectation |
| HarnessRecords.ReadsExactly | crates/wasm_lite_codegen/src/lib.rs:363-387 | The reader takes any line for a record if and only if it is a name and fields that each say something, the last expectation counting; any other field refuses it |
| HarnessRecords.RecordsReadBack | crates/wasm_lite_codegen/src/lib.rs:356-390 | Any records, spread over any sections, are read back in order, whole but for a carriage return at the end of a message |
| HarnessRecords.RoundTripExactlyWithoutCr | crates/wasm_lite_codegen/src/lib.rs:361-362 | The round trip holds if and only if no expected message ends in a carriage return |
| HarnessRecords.ACarriageReturnIsLost | crates/wasm_lite_macro/src/lib.rs:570-579 | A message the macro accepts and the reader returns shorter |
| Console.Ring.Push | crates/wasm_lite/src/console.rs:68-79 | The ring stays the tail of the whole history that its capacity allows, numbered in order |
| Console.Ring.Since | crates/wasm_lite/src/console.rs:81-97 | A read, counter wrapped or not, is a read of the whole history by its numbers |
| Console.ReadIsView | crates/wasm_lite/src/console.rs:81-97 | Until the counter wraps, that is the history from the cursor on, less what the capacity pushed out, which is counted |
| Console.EveryRecordOnceOrCounted | crates/wasm_lite/src/console.rs:68-97 | However reads and pushes interleave, a reader that passes back its cursor gets no record twice, in order, each the push of its number, and given plus dropped is everything before its cursor |
| Console.NothingMissedWithinCapacity | crates/wasm_lite/src/console.rs:81-97 | A read drops nothing if no more was pushed since the last than the ring holds |
| Console.RereadGivesNothingExactly | crates/wasm_lite/src/console.rs:68-97 | For every history and capacity: reading again at the cursor just returned gives nothing if and only if the counter has not wrapped since the oldest record held |
| Console.AWrapGivesRecordsTwice | crates/wasm_lite/src/console.rs:78-78 | At the wrap, whatever the capacity, the returned cursor gives all records again |
| Calibration.Calibrate | crates/wasm_lite/src/bench.rs:266-286 | For any clock: at most 41 batches, a size from 1 to 2^40, the last batch cleared the threshold or is as large as allowed, none before it did, fewer than 3n iterations in all |
| Calibration.CalibrateCustom | crates/wasm_lite/src/bench.rs:154-165 | The async form promises the same |
| Calibration.OneOutcome | crates/wasm_lite/src/bench.rs:138-165 | Both settle on the same size on the same readings |
| Calibration.CalibratedInNumbers | crates/wasm_lite/src/bench.rs:266-286 | Every batch but the last took less than ten milliseconds, and the last ten or more, or it ran 2^40 iterations |
| Calibration.AtMost41Batches | crates/wasm_lite/src/bench.rs:266-286 | The forty-first batch at the latest is accepted |
| Calibration.BatchesDouble | crates/wasm_lite/src/bench.rs:270-285 | While none is accepted, batches at least double up to the cap, and all before one are together smaller than it, or than twice it at the cap |
| Calibration.BatchGrows | crates/wasm_lite/src/bench.rs:280-285 | The next batch is 2 to 64 times as large, up to the cap, and the saturating multiplication never saturates |
| Calibration.AStepStaysUnderTwiceTheTarget | crates/wasm_lite/src/bench.rs:258-285 | For a body whose time grows with the batch, the next batch takes less than twice the target |
| Calibration.AStepReachesTheTarget | crates/wasm_lite/src/bench.rs:258-285 | For such a body the next batch takes ten milliseconds or more, unless held back at 64 times as many or at the cap |
| Calibration.NoReadingNoProportion | crates/wasm_lite/src/bench.rs:277-285 | After a reading of zero or less the next batch is sixteen times as large, up to the cap |

## Left out

- Channel, Wakers and TimerDriver are state machines over values, since their subject is the interleaving; update in place and aliasing are not captured there. The sequential objects (timer queue, token registry, slab, readers, ring) are classes.
- Memory ordering: every atomic operation is one sequentially consistent step.
- The condvar, mutex and spin/park/async lock bodies of `wasm_lite_std` are used by their contracts: a wait registers before it releases the lock, a notification wakes a registered waiter, waits may return spuriously. The four ways of sending and the receive calls share one set of steps; the spinning ones are among those runs.
- `AtomicWaker` is a slot with an atomic register and an atomic take-and-wake.
- Wakers: one wait, one waker and one polling thread; the wasm32 polling loop of `block_on` is not part of this model.
- `sender_count`, timer ids and `Instant` are unbounded; the token counter, closure ids and the console counter are not.
- SpawnJoin: panics of the closure are values like any other; the join of the thread itself after the result, and `join_async`, are left out.
- TimerQueue: `BinaryHeap` is its contract, a sequence in pop order.
- TimerDriver.NeverOversleeps: allows the gap between the driver's clock read and the start of its wait, because the code waits for a duration; `OversleepsOnlyByTheGap` is exact.
- ChannelTheorems.DisconnectedIsLosslessAndFinal: allows a later receive to time out on the lock, because one can; `LaterReceivesExactly` says which.
- Console.EveryRecordOnceOrCounted: is about runs of fewer than 2^64 pushes; beyond, `RereadGivesNothingExactly` says when it breaks.
- TimerTokens.Registry.Register: requires a free token; with none the source loops for ever.
- SleepLegs.SleepAsync.Poll: the inner timers are arguments, ready or not at given times and never early, as many as legs may be needed; dropping the finished inner timer is left out.
- ClosureCalls: destructors of closures are assumed not to call back into the registry, which is borrowed while `remove` and `give_back` destroy a value. The three registries by arity are one model. A panic inside a closure is left out.
- ClosureCalls.RunKeepsInv: the slab is kept below 2^32 slots, where `idx as u32` is exact.
- ExportAgreement.AcceptedExactly: names are those of Rust identifiers, each of which is an identifier name of ECMA-262; that its Unicode classes contain Rust's is not part of this model.
- Rust tokens: the macros start from type trees; names are what Rust's lexer and `module_path!` can produce, and syntax errors are left out; among the macro's own errors, those of attributes on an imported function are. The generated function bodies are left out; of the functions themselves the parameters and the result are modelled.
- Descriptor and harness sections are text; the UTF-8 check on them is not modelled.
- GlueEmitter: the names, the call itself, the frees and the code for results (`write_payload`, `read_payload`) are left out; what crosses for a result is a table by return tag, `RetSlot`.
- WasmTheorems: section ids and their order, the bodies of all sections but custom and import ones, and whatever validation asks beyond the binary format are free, as the reader leaves them.
- Errors of the parsers are told apart by kind, not by message; which of several that apply is reported first is part of the specification functions alone.
- `exported_names` repeats the walk of the imports and would add only easy members, as would `custom_section`.
- The reader's `length overflow` cannot happen on the unbounded integers used for positions.
- `summarize`, the clock itself and floating-point rounding in benchmarks; times are reals, so NaN is excluded.
- `SpinMutex` around the console ring, the rest of the JavaScript `generate.rs` emits, the DOM, fetch, WebSocket, event and date wrappers, the command line, WebDriver, HTTP serving, and the two backend crates.
