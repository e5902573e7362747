# Verified model of the DRLVM execution manager and of interpreted native calls

The project models five parts of the DRL virtual machine and proves what they keep over whole runs.

* **Method lookup table** (`CodeChunks`, `MethodLookup`, `LookupScan`). Registered code ranges live in an ordered
  array searched by bisection behind a 1024-slot cache. Every history of atomic calls is shown to answer as a plain
  set of disjoint ranges. The lock-free scan is modelled as a machine that moves word by word against the thread that
  is adding chunks.
* **Top-N-Value profiles** (`TopNValue`, `TopNExact`, `TopNAnswer`, `TopNEviction`, `TopNClearing`, `TnvTableManager`,
  `TnvThreads`). The FirstN and Divided table managers, their invariants under eviction, promotion and clearing, who
  gets into a full table and when it is cleared, what the counts mean in terms of the sampled values, which value is
  reported, and the locked and flagged update strategies with threads interleaved inside updates and `getResult`.
* **Native calls on em64t** (`OperandStack`, `Descriptors`, `NativeCall`, `NativeCallee`, `NativeReturn`). The walk over
  a method descriptor (section 4.3.3 of the Java Virtual Machine Specification, 2nd edition) that spreads operand-stack
  slots over registers and memory, the stub that loads them, a callee that takes its parameters left to right as section
  3.2.3 of the System V AMD64 ABI says, and the push of the result.
* **Profile collection and recompilation** (`EBProfiles`, `CollectorRuns`, `Recompilation`, `TickScheduler`,
  `EdgeCounters`). The life of a profile from creation to report or deletion, admission to recompilation with nested
  and concurrent calls, the tick that drives the collectors, and the edge counters.
* **Method filters** (`MethodFilter`, `FilterLines`). The configuration-line parser, a printer that inverts it, laws
  between lines, and the decision whether a method is accepted.

Classes follow the source's objects: their methods loop over arrays and fields as the source does and are proved
against functions on values; the lemmas are about those functions. Protocols with several threads are state machines;
a run is any sequence of their steps.

## Where the code does not do what is said about it

* The comment at `vm/em/src/method_lookup.cpp:286-289` says that the linear scan never loses an element while a method
  is added. `add` moves the last entry out of the visible part before it raises the count, so the last entry can be
  lost, and the scan's closed upper bound can return the chunk below the right one. `ScanReturnsEntryIff` gives the
  exact condition.
* `remove` purges the cache before it takes the lock. A `find` in between refills the slot, and the removed chunk is
  then answered from the cache (`StaleAnswer`); `RemovalSafeIff` says exactly which calls in between are safe.
* A run of k equal samples is credited k + 1 in the value tables: 1 when the run starts and k when it is flushed. The
  reported value is therefore not always a most frequent one; `MostFrequentIff` says exactly when it is, and
  `AnswerMaximisesCredit` and `FactorTwoIsTight` how far off it can be. A leading run of the value 0 is credited only
  k, since 0 is the initial last value.
* `getResult` takes the lock but never the update flag. Under the flagged strategy a sample can fall between the two
  halves of its flush and is lost without being skipped (`SampleLostToFlush`); `SerialIff` says exactly which calls
  may be mixed.
* `addMethodFilter` reads before the beginning of an empty string for lines such as `5b..`; `UndefinedIff` says which.
* A native method that returns a boolean byte other than 0 or 1 leaves a value on the operand stack that is no
  boolean, as `InvokeNative` states.

## Model

| member | source | states |
|---|---|---|
| CodeChunks.InsertedOrdered | vm/em/src/method_lookup.cpp:92-99 | inserting at the found index keeps the table ascending and disjoint exactly when the new chunk is non-empty and overlaps no entry |
| CodeChunks.LookupByIndex | vm/em/src/method_lookup.cpp:188-206 | in an ordered table the insertion index decides membership: the address is in that entry alone or in none |
| MethodLookup.StepRefines | vm/em/src/method_lookup.cpp:81-268 | each atomic add, remove or find keeps the table ordered and every cached chunk a current entry, and simulates a set of ranges, answer included |
| MethodLookup.TraceRefinement | vm/em/src/method_lookup.cpp:81-268 | over every history of disjoint adds, removes and finds the outputs are those of the plain set of ranges, for ip or for ip - 1 when the ip is past |
| MethodLookup.SpecOutputUnique | vm/em/src/method_lookup.cpp:210-268 | the set of ranges allows one answer only, so the refinement fixes the result of find |
| MethodLookup.UnlinkCoherentIff | vm/em/src/method_lookup.cpp:112-146 | unlinking an entry leaves the cache coherent exactly when no slot holds that entry |
| MethodLookup.InterleavedRemoval | vm/em/src/method_lookup.cpp:106-155 | with any calls between the purge and the locked half of a removal the table stays ordered and the cache coherent, provided none of them answers with the chunk being removed |
| MethodLookup.RemovalSafeIff | vm/em/src/method_lookup.cpp:106-155 | for any set of adds, lookups and removes of other chunks: all their sequences between the two halves of a removal keep the table ordered and the cache coherent if and only if none of the lookups is for an address of the removed chunk |
| MethodLookup.StaleAnswer | vm/em/src/method_lookup.cpp:112-155 | for every registered chunk, a lookup of any of its addresses, past or not, between the two halves of its removal makes the same lookup afterwards answer with the removed chunk |
| MethodLookup.MethodLookupTable.constructor | vm/em/src/method_lookup.cpp:36-47 | an empty table of capacity 511 and an empty cache |
| MethodLookup.MethodLookupTable.Reallocate | vm/em/src/method_lookup.cpp:64-77 | a larger array with the same entries and cache |
| MethodLookup.MethodLookupTable.FindIndex | vm/em/src/method_lookup.cpp:188-206 | the bisection finds the first entry that ends above the address |
| MethodLookup.MethodLookupTable.ShiftAndPlace | vm/em/src/method_lookup.cpp:94-99 | the right-to-left shift opens exactly one slot |
| MethodLookup.MethodLookupTable.Add | vm/em/src/method_lookup.cpp:81-102 | the state becomes that of the insertion step, whether or not the table had to grow |
| MethodLookup.MethodLookupTable.PurgeCache | vm/em/src/method_lookup.cpp:112-124 | exactly the slots whose chunk contains the address are emptied |
| MethodLookup.MethodLookupTable.Search | vm/em/src/method_lookup.cpp:244-264 | the bisection of find and remove finds the entry that contains the address if there is one |
| MethodLookup.MethodLookupTable.ShiftOver | vm/em/src/method_lookup.cpp:142-146 | the left shift removes exactly one entry |
| MethodLookup.MethodLookupTable.Remove | vm/em/src/method_lookup.cpp:106-155 | cache purge and removal together are the removal step, null address included |
| MethodLookup.MethodLookupTable.Find | vm/em/src/method_lookup.cpp:210-268 | cache probe, search and cache fill together are the lookup step |
| LookupScan.WriterKeepsInv | vm/em/src/method_lookup.cpp:81-102 | after every single write of an add, each old entry is in its old slot, its new slot or both, and no chunk is lost |
| LookupScan.EveryScanIsSound | vm/em/src/method_lookup.cpp:281-300 | for every interleaving the scan never reads an unwritten slot and returns only a registered chunk whose closed range holds the address |
| LookupScan.EveryScanEnds | vm/em/src/method_lookup.cpp:281-300 | however the table grows meanwhile, every schedule with enough moves of the scan lets it end; twice the number of registered and queued chunks plus one are enough |
| LookupScan.KeptEntryIsFound | vm/em/src/method_lookup.cpp:281-300 | for every interleaving with any number of adds, started at any point of an add, the scan returns nothing but the entry that contains the address, if that entry is not last |
| LookupScan.KeptEntryIsReturned | vm/em/src/method_lookup.cpp:281-300 | with enough moves of its own the scan has ended and has returned that entry |
| LookupScan.LastEntryCanBeLost | vm/em/src/method_lookup.cpp:95-99 | from every state whose next insertion is below the last entry, some schedule makes the scan miss the last entry |
| LookupScan.EndAddressIsAmbiguous | vm/em/src/method_lookup.cpp:290-298 | if some chunk ends at the address, some schedule makes the scan return another chunk than the one that contains it |
| LookupScan.ScanReturnsEntryIff | vm/em/src/method_lookup.cpp:272-301 | all schedules with enough moves of the scan end with the entry that contains the address if and only if no chunk ends there and the entry is not last or the next insertion goes behind it |
| TopNValue.FindValue | vm/em/src/NValueProfileCollector.cpp:58-66 | the first slot with the value, or -1 when there is none |
| TopNValue.MinIdx | vm/em/src/NValueProfileCollector.cpp:76-91 | the first slot of least frequency, so the first cleared slot if there is one |
| TopNValue.MaxIdx | vm/em/src/NValueProfileCollector.cpp:93-105 | the first slot of greatest frequency |
| TopNValue.InsertDividedKeeps | vm/em/src/NValueProfileCollector.cpp:223-272 | insertion, promotion and demotion keep: a live value is first in its part, live in one part only, and no clear frequency exceeds a steady one |
| TopNValue.DividedTables | vm/em/src/NValueProfileCollector.cpp:223-298 | over every history a value has at most one slot of non-zero frequency in the two parts, and the steady maximum is the maximum of both |
| TopNValue.RunCovered | vm/em/src/NValueProfileCollector.cpp:107-117 | over every history of samples and flushes each slot's frequency plus its pending count is covered by the value's occurrences plus runs |
| TopNValue.FrequencyBound | vm/em/src/NValueProfileCollector.cpp:157-298 | for both managers frequency plus pending count never exceeds occurrences plus runs, hence twice the number of events |
| TopNValue.WrapFree | vm/em/src/NValueProfileCollector.cpp:157-298 | for fewer than 2^31 events the 32-bit run equals the unbounded one |
| TopNValue.SteadyNeverDecreases | vm/em/src/NValueProfileCollector.cpp:157-298 | along every history the frequency of each steady slot never decreases |
| TopNExact.RunExactly | vm/em/src/NValueProfileCollector.cpp:157-220 | with at most steadySize distinct values, frequency plus pending count equals occurrences plus runs for every value |
| TopNExact.DividedMirrorsFirstN | vm/em/src/NValueProfileCollector.cpp:223-298 | in that case the Divided steady table equals the FirstN table slot by slot, whatever the clear interval |
| TopNExact.AnswerMaximisesCredit | vm/em/src/NValueProfileCollector.cpp:384-402 | in that case the reported value maximises occurrences plus runs, and no value occurs more than twice as often |
| TopNExact.FactorTwoIsTight | vm/em/src/NValueProfileCollector.cpp:384-402 | for every k >= 2 a history makes the reported value one sampled k times while another was sampled 2k - 2 times |
| TopNAnswer.AnswerIsFirstOfGreatestCredit | vm/em/src/NValueProfileCollector.cpp:93-117 | with at most steadySize distinct values, for both managers, the reported value is the one sampled first among those of greatest occurrences plus runs |
| TopNAnswer.MostFrequentIff | vm/em/src/NValueProfileCollector.cpp:384-402 | in that case a most frequent value is reported if and only if the first sampled value of greatest occurrences plus runs occurs most often, a condition on the history alone |
| TopNEviction.FirstNInsertion | vm/em/src/NValueProfileCollector.cpp:157-171 | a live value is counted up in its slot; any other takes the first slot of least frequency if some slot has a lower frequency than its own, else nothing changes |
| TopNEviction.NewcomerEntersIff | vm/em/src/NValueProfileCollector.cpp:163-170 | a value that is not live gets into a FirstN table if and only if some slot has a lower frequency, and every slot but one of least frequency stays |
| TopNEviction.DividedInsertion | vm/em/src/NValueProfileCollector.cpp:223-272 | counted if live in the steady part; else, with its clear count added, it takes the first least steady slot if it beats some slot and the ousted entry competes for the clear part; else it is counted in or competes for the clear part |
| TopNEviction.OustedIsKept | vm/em/src/NValueProfileCollector.cpp:236-249 | a value promoted out of the clear part swaps places: the live entry it ousts is in the clear part afterwards |
| TopNEviction.EndedRunCounts | vm/em/src/NValueProfileCollector.cpp:107-298 | for both managers and every history with any number of values: once a run of k equal samples has ended, some steady slot has frequency at least k, for ever |
| TopNEviction.DominantRunIsReported | vm/em/src/NValueProfileCollector.cpp:384-402 | for both managers and every history with any number of values: a value with a run longer than what any other value is credited with is reported, in 32 bits too below 2^31 events |
| TopNClearing.TickOfRun | vm/em/src/NValueProfileCollector.cpp:280-284 | over every history the tick counts the samples, and only those, from 1 to the interval over and over |
| TopNClearing.ClearsOnSchedule | vm/em/src/NValueProfileCollector.cpp:274-298 | the next sample finds the clear part zeroed exactly when samples were taken and their number is a multiple of the interval, and untouched otherwise; in 32 bits too below 2^31 events |
| TnvTableManager.Find | vm/em/src/NValueProfileCollector.cpp:58-66 | the search loop returns the first slot with the value or -1 |
| TnvTableManager.FindMinIdx | vm/em/src/NValueProfileCollector.cpp:76-91 | the loop with its early exit returns the first slot of least frequency |
| TnvTableManager.FindTop | vm/em/src/NValueProfileCollector.cpp:93-105 | the loop returns the value of the first slot of greatest frequency, 0 for a cleared table |
| TnvTableManager.ClearTopElements | vm/em/src/NValueProfileCollector.cpp:68-74 | frequencies become 0 and stale values stay |
| TnvTableManager.InstructionProfile.constructor | vm/em/src/NValueProfileCollector.cpp:40-56 | the initial profile of the histories |
| TnvTableManager.InstructionProfile.InsertFirstN | vm/em/src/NValueProfileCollector.cpp:157-171 | the array update is the FirstN insertion of the histories, in 32 bits |
| TnvTableManager.InstructionProfile.InsertDivided | vm/em/src/NValueProfileCollector.cpp:223-272 | the updates of both arrays are the Divided insertion of the histories, in 32 bits |
| TnvTableManager.InstructionProfile.FlushLastValueCounter | vm/em/src/NValueProfileCollector.cpp:107-117 | the flush of the histories |
| TnvTableManager.InstructionProfile.AddValue | vm/em/src/NValueProfileCollector.cpp:274-298 | tick, clear, count or flush-and-insert together are one sample of the histories, for either manager |
| TnvTableManager.InstructionProfile.GetTopValue | vm/em/src/NValueProfileCollector.cpp:384-402 | flushes, then answers the maximum of the steady table |
| TnvThreads.UpdatesSerialise | vm/em/src/NValueProfileCollector.cpp:173-402 | for any number of threads interleaved inside updates and `getResult`, as long as all calls go through the lock or all through the flag: at most one is inside, profile and answers at rest are those of the admitted calls in turn, and under the lock every call is admitted |
| TnvThreads.SampleLostToFlush | vm/em/src/NValueProfileCollector.cpp:107-402 | under the flagged strategy, from every profile at rest, a schedule loses an admitted sample to the flush of `getResult`; if the value has a count already, neither serial order of the two calls gives that profile |
| TnvThreads.SerialIff | vm/em/src/NValueProfileCollector.cpp:173-402 | for any set of calls: every interleaving of them leaves profile and answers of the admitted calls in turn if and only if the manager or the strategy always locks, or `getResult` is not among them, or nothing else is |
| TnvThreads.EveryHistoryHappens | vm/em/src/NValueProfileCollector.cpp:173-402 | for both managers and both strategies every history of calls has a schedule that admits exactly these calls in order and ends at rest with their profile and answers, so a free guard always admits |
| OperandStack.Stack.constructor | vm/interpreter/src/interp_defs.h:662-669 | an empty stack with no tag set |
| OperandStack.Stack.PopClearRef | vm/interpreter/src/interp_defs.h:772-778 | the popped slots lose their tags, so nothing above the top stays tagged, and the tags below are unchanged |
| Descriptors.LocationsDistinct | vm/interpreter/src/interp_native_em64t.cpp:328-404 | by the caller's counting rule no two parameters share a register or memory word |
| NativeCall.WriteInsideBlock | vm/interpreter/src/interp_native_em64t.cpp:294-297 | every parameter word lies inside the allocated block, and a memory parameter has index below sz - 4 |
| NativeCall.BlockIsTight | vm/interpreter/src/interp_native_em64t.cpp:294-297 | for every n >= 5 a descriptor with n slots fills the block to its last word |
| NativeCall.PlaceInteger | vm/interpreter/src/interp_native_em64t.cpp:345-349 | the argument goes to the next integer register or memory word by the counting rule, which is where the callee takes it |
| NativeCall.PlaceFloating | vm/interpreter/src/interp_native_em64t.cpp:376-398 | the same for floating-point parameters; a float changes the low half of the word only |
| NativeCall.SkipType | vm/interpreter/src/interp_native_em64t.cpp:333-335 | from the first character of a reference type the loops stop on its last character |
| NativeCall.MarshalOne | vm/interpreter/src/interp_native_em64t.cpp:310-404 | one parameter goes to its ABI location, nothing else in the block changes, and the walk advances by its text and its slots |
| NativeCall.MarshalNext | vm/interpreter/src/interp_native_em64t.cpp:308-405 | parameter j joins those before it at their ABI locations; environment and receiver are never overwritten |
| NativeCall.MarshalArguments | vm/interpreter/src/interp_native_em64t.cpp:285-406 | the walk stops on ')' with all slots consumed, environment and receiver first, and every parameter at its ABI location |
| NativeCallee.ArgumentRoundTrip | vm/interpreter/src/interp_native_em64t.cpp:310-400 | native code that reads the word by its C type sees the Java value of the cell, for every type |
| NativeCallee.TakesItsWord | vm/interpreter/src/invokeJNI_em64t.asm:22-66 | a callee that takes the next register of a parameter's class, or the next memory word, takes through the stub the very word the caller's counting rule names |
| NativeCallee.CalleeRecoversArguments | vm/interpreter/src/interp_native_em64t.cpp:308-405 | that callee, starting after environment and receiver, gets the values the Java caller pushed, in order, whatever they are; the pushed cells are walked from the deepest, two for a long or double |
| NativeReturn.PushResult | vm/interpreter/src/interp_native_em64t.cpp:419-540 | the pushed cell holds the returned value (for a boolean exactly when the byte is 0 or 1), carries the object tag exactly for objects and arrays, and nothing above the top is tagged |
| NativeReturn.PassArguments | vm/interpreter/src/interp_native_em64t.cpp:285-406 | through the stub the block gives the callee the environment, the receiver and the pushed argument values in order, static or virtual |
| NativeReturn.InvokeNative | vm/interpreter/src/interp_native_em64t.cpp:272-553 | the whole call, for the return type the descriptor ends with: the callee recovers environment, receiver and arguments; height is old - sz + return slots, slots below the arguments are unchanged, tags above the top stay clear, the result is held as above; nothing changes when no function is found |
| EBProfiles.RemoveNulls | vm/em/src/EBProfileCollector.cpp:184-184 | in-place removal leaves the live profiles in order, then the old tail |
| EBProfiles.NullOne | vm/em/src/EBProfileCollector.cpp:178-179 | nulling a slot takes exactly its profile out of the live ones |
| EBProfiles.MarkReady | vm/em/src/EBProfileCollector.cpp:175-181 | hot profiles are collected in order and leave nulls, the others stay |
| EBProfiles.EBProfileCollector.CreateProfile | vm/em/src/EBProfileCollector.cpp:132-147 | the profile joins the new ones |
| EBProfiles.EBProfileCollector.OnTimeout | vm/em/src/EBProfileCollector.cpp:162-196 | the hot loaded profiles are reported in order, exactly the other loaded ones stay in order, new and unloaded are emptied |
| EBProfiles.EBProfileCollector.CleanUnloadedProfiles | vm/em/src/EBProfileCollector.cpp:224-239 | every lookup succeeds and exactly the unloaded profiles leave the green ones |
| EBProfiles.EBProfileCollector.ClassloaderUnloadingCallback | vm/em/src/EBProfileCollector.cpp:241-254 | the loader's green and new profiles are noted once each and stay where they are |
| CollectorRuns.CompactLeavesLive | vm/em/src/EBProfileCollector.cpp:182-186 | remove followed by resize leaves exactly the unmarked profiles in order |
| CollectorRuns.UnloadedAreGreen | vm/em/src/EBProfileCollector.cpp:224-232 | when the clean-up starts every profile awaiting it is green, once, so the asserted lookup succeeds |
| CollectorRuns.StepKeeps | vm/em/src/EBProfileCollector.cpp:132-254 | every step of the timer and of other threads conserves the profiles and keeps the unload bookkeeping |
| CollectorRuns.EveryRun | vm/em/src/EBProfileCollector.cpp:132-254 | in every run each created profile is in exactly one of new, green, marked, reported, deleted; none is reported twice; no lookup fails |
| CollectorRuns.HotAtStartIsReported | vm/em/src/EBProfileCollector.cpp:162-196 | a loaded profile that is hot when a timer call starts is reported when it returns, whatever is interleaved |
| CollectorRuns.NoReportAfterUnload | vm/em/src/EBProfileCollector.cpp:224-254 | after the unloading callback no profile of the loader is ever reported |
| CollectorRuns.UnloadCall | vm/em/src/EBProfileCollector.cpp:241-254 | the callback step notes exactly what `ClassloaderUnloadingCallback` promises, whose precondition holds in every run, and touches nothing else |
| CollectorRuns.CreateCall | vm/em/src/EBProfileCollector.cpp:132-147 | the creation step does exactly what `CreateProfile` promises, whose precondition holds in every run |
| CollectorRuns.UnloadedIsDeleted | vm/em/src/EBProfileCollector.cpp:162-254 | from the callback on, whatever follows: no profile of the loader is reported any more, and those green or new are deleted when the next timer call has returned |
| CollectorRuns.CreatedAndHotIsReported | vm/em/src/EBProfileCollector.cpp:132-254 | in every run that creates a profile, heats it and does not unload its loader, the next timer call to start and return has it reported, whatever is interleaved |
| CollectorRuns.QuietCall | vm/em/src/EBProfileCollector.cpp:162-196 | timer steps that nothing interrupts go from idle to idle with exactly the outcome promised for a whole timer call: same reports, same remaining profiles, same order |
| Recompilation.ReportIsFirst | vm/em/src/DrlEMImpl.cpp:779-788 | a profile the collector reports is never in the recompilation set already |
| Recompilation.AdmittedAtMostOnce | vm/em/src/DrlEMImpl.cpp:777-835 | for all interleavings and nested calls the set holds exactly the profiles in flight, each once; re-entry changes nothing; each profile of the collector is admitted exactly when reported, at most once in the run |
| Recompilation.FinishUndoesReady | vm/em/src/DrlEMImpl.cpp:777-835 | a recompilation that ends leaves the set and every thread as before it began |
| Recompilation.SetDrains | vm/em/src/DrlEMImpl.cpp:777-835 | when the threads have finished what they have begun the set is empty and every admission has ended |
| TickScheduler.RunsExactlyPeriodically | vm/em/src/DrlEMImpl.cpp:859-869 | a client runs on call k exactly when k is its initial timeout plus a multiple of its period, across wrap-around of the 32-bit tick |
| TickScheduler.EmTimer.constructor | vm/em/src/DrlEMImpl.cpp:726-731 | the first run of each client is due at its initial timeout |
| TickScheduler.EmTimer.TbsTimeout | vm/em/src/DrlEMImpl.cpp:859-869 | on every call exactly the clients whose period has come round run |
| EdgeCounters.LowerBound | vm/em/src/EdgeProfileCollector.cpp:140-141 | the search returns the first key not below the one looked for |
| EdgeCounters.EdgeMethodProfile.constructor | vm/em/src/EdgeProfileCollector.cpp:179-203 | the profile is the map that counts 0 for exactly the given distinct keys |
| EdgeCounters.EdgeMethodProfile.GetCounter | vm/em/src/EdgeProfileCollector.cpp:138-147 | a key of the profile has its own counter position, any other key has none |
| EdgeCounters.EdgeMethodProfile.Bump | vm/em/src/EdgeProfileCollector.cpp:56-61 | an update through the returned position is an update of the key-to-count map |
| EdgeCounters.EdgeMethodProfile.IsMethodHot | vm/em/src/EdgeProfileCollector.cpp:206-222 | hot exactly when the entry count or some edge count reaches its threshold |
| MethodFilter.Find | vm/em/src/MTable.cpp:47-91 | the first occurrence at or after a position, or none |
| MethodFilter.NumFits | vm/em/src/MTable.cpp:35-39 | an accepted number is at most 999999999, so its conversion cannot overflow |
| MethodFilter.PrintParse | vm/em/src/MTable.cpp:41-102 | parsing the printed form of a canonical filter gives the filter back |
| MethodFilter.ParseIsCanonical | vm/em/src/MTable.cpp:41-102 | every accepted line gives a canonical filter, with start <= end <= 999999999 for ranges |
| MethodFilter.CanonicalIffParsed | vm/em/src/MTable.cpp:41-102 | the canonical filters are exactly those some line parses to |
| MethodFilter.UndefinedIff | vm/em/src/MTable.cpp:57-65 | exactly which lines make the parser read an empty string backwards |
| MethodFilter.DecisionUnique | vm/em/src/MTable.cpp:126-139 | the filters always decide, one way |
| MethodFilter.LaterFilterYields | vm/em/src/MTable.cpp:126-139 | a filter added later matters only for methods no earlier filter matches |
| MethodFilter.LinesDecide | vm/em/src/MTable.cpp:41-139 | the filters of the accepted lines decide every method as the lines read from the top do: the first line that matches it |
| MethodFilter.DecisionsStand | vm/em/src/MTable.cpp:41-139 | whatever lines follow, a method that some line matches is decided as before |
| MethodFilter.MTable.AddRange | vm/em/src/MTable.cpp:45-78 | the walk over a range line adds exactly the range the parser function gives, or rejects the line where it does |
| MethodFilter.MTable.AddName | vm/em/src/MTable.cpp:79-99 | the walk over a name line adds exactly the name filter the parser function gives |
| MethodFilter.MTable.AddMethodFilter | vm/em/src/MTable.cpp:41-124 | after any lines the table stands for them in order: an accepted line adds one filter that its printed form parses back to, a rejected one changes nothing, and no method matched by an earlier line is decided differently |
| MethodFilter.MTable.AcceptMethod | vm/em/src/MTable.cpp:126-139 | the answer is that of the first given line that matches the method, accept when there is none |
| FilterLines.SignLaws | vm/em/src/MTable.cpp:43-44 | a line without a sign accepts as with a plus; with a minus it denies the same methods |
| FilterLines.ColonsAreADot | vm/em/src/MTable.cpp:80-98 | in a line without dots the first pair of colons parses as a dot in its place |
| FilterLines.SingleNumber | vm/em/src/MTable.cpp:47-56 | a number alone, with or without suffix and sign, parses as the range from it to itself |
| FilterLines.RangeLineIff | vm/em/src/MTable.cpp:45-78 | a line that begins with a digit is accepted as a filter if and only if it spells that range with numbers of one to nine digits in order, suffixes on both or none |
| FilterLines.NameMatchesIff | vm/em/src/MTable.cpp:166-185 | a name filter matches exactly the methods whose class name, name and signature go on from its own |
| FilterLines.LongerMatchesLess | vm/em/src/MTable.cpp:166-185 | lengthening a name filter only removes matches |
| FilterLines.FullNameDecides | vm/em/src/MTable.cpp:41-139 | a first line with a method's full name decides that method, and none whose strings do not go on from it |
| FilterLines.RangeMatchesIff | vm/em/src/MTable.cpp:152-163 | a printed range speaks of exactly the methods with a number in it, or a bytecode size with suffixes |

## Left out

- LookupScan.Exec: memory is sequentially consistent and growing the table is one step, as the source's comment takes it; a scan that holds the freed array is not modelled.
- MethodLookup.Step: calls are atomic, except that `InterleavedRemoval`, `RemovalSafeIff` and `StaleAnswer` split a removal in its two halves. Indices are unbounded; `(L + R) / 2` and the doubled capacity do not wrap.
- `append_unlocked` and the iterators of the lookup table would only add easy members; `find_deadlock_free` with the lock taken is `find`.
- TopNValue.DividedTables: stated for unbounded counters; `WrapFree` carries it to the 32-bit ones for fewer than 2^31 events.
- TnvThreads.UpdatesSerialise: UPDATE_LOCKED_INSERT, UPDATE_FLAGGED_INSERT and UPDATE_UNSAFE race by design and are not modelled.
- The map from instruction keys to value profiles and the dumps are plain wrappers.
- NativeCall.MarshalArguments: Linux em64t with uncompressed references; compressed references, the Windows convention, the JVMTI callbacks, monitors and the stub's stack alignment are not modelled. The descriptor is taken to be well formed and to agree with the slot count, as class loading ensures.
- `interpreter_execute_native_method` in the same file falls from its float and double cases into the abort, so it has no round trip.
- TopNClearing.ClearsOnSchedule: for more events the 32-bit tick wraps, which an interval of 0 would notice.
- EBProfiles.EBProfileCollector.CreateProfile: the map from methods to profiles and SYNC mode are not modelled.
- CollectorRuns.Step: counters do not wrap, so a hot profile stays hot; unloading is atomic with respect to `onTimeout`, and no profile is created for an unloaded loader.
- Recompilation.Ready: compilation is any time between admission and finish; the chain walk and its last-step case are not modelled.
- The edge collector's `onTimeout` and unloading repeat those of the entry/back-edge collector.
- EdgeCounters.SortedKeys: stands for the library sort; keys are distinct, as the source asserts.
- TnvThreads.SerialIff: stated for unbounded counters; `UpdatesSerialise` covers the 32-bit ones.
- TopNAnswer.AnswerIsFirstOfGreatestCredit: stated while the distinct values fit the steady table; with more, eviction makes the answer depend on what was dropped.
- MethodFilter.Parse: for the lines "+" and "-" the source indexes an empty string; the model takes the terminator there, as later C++ standards do.
- Configuration reading, JIT loading, logging and memory release are input/output or foreign calls.
