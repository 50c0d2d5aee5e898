# Verified model of the VM scheduling framework

This project models, in Dafny, the parts of the virtual-machine scheduling framework whose correctness
spans several functions or whole runs, and three algorithms of the tools bundled with it. Each module is
one source component, in the form of that component: what the source updates in place is a class whose
methods are proved against functions on values, and the theorems are proved about these functions.

**Sampling threads.** `Perf` is the kernel's table of open counter descriptors; which calls fail is
arbitrary. `CacheMissSampler` (CacheMiss.dfy) opens four descriptors for every watched thread, reads them twice and
drains its two queues. `VmCacheMissTracker` (VmCacheMiss.dfy) queues the difference between rounds and sums the counts
per VM. Their invariants account for every descriptor over every run with any failures, and for why a
tracked thread may be unwatched. `CpuUsageSampler` (CpuUsage.dfy) works on truncated counters; the protocol of its
tracker is `VmCpuUsageTracker` (VmCpuUsage.dfy), a state machine of lock regions. Starts are drained before stops, so a
pid queued for stop and again for start is lost: the expected balance holds over a run if and only if
this never happens.

**Scheduling and topology.** `NaiveScheduler` deals VMs to nodes and is proved to balance them.
`NodeTopology` (NodeCpu.dfy) reads CPU lists and cpuinfo records into tables, derives further tables by
inclusion and answers lookups in both directions; `CpuTopology` states from the text of the files what a refresh
makes of them. `CpuList` is its list parser, which passes an end index as a length
(src/sysinfo/host/static/node_cpu.cpp:248); the exact condition under which it still reads a list
correctly is proved, with a list it misreads. `StrTools` and `Decimals` are the text routines below them.
`CpuBinding` is the greedy binding of benchmark threads.

**Identity, time and buffers.** `VmIdentity` is the tolerant order of VM ids, which is fit for a map key
exactly where "within two seconds" is transitive, and the parser of elapsed times. `PerfBuffer` is the
consumer's side of a ring buffer: its invariant says that what was delivered is the produced stream without
the skipped records. The copy is right exactly when a record does not wrap around, because the wrap
length counts the header page (src/utils/perf_event.cpp:31); rings that hold whole records never wrap one.

**Bundled tools.** `SimpleRegex` is Google Test's own regular-expression engine, proved against a
denotational semantics; its full match is a match of the whole string exactly for regexes that do not end in
an escaped dollar. `StringLiteral` is its printer of byte strings, read back by sections 2.2, 2.14.3 and
2.14.5 of ISO/IEC 14882:2011. `BracketMatcher` and `NestingTracker` (NestingState.dfy) are cpplint's bracket scanners, proved
inverse to each other, and its nesting stack with preprocessor checkpoints. `TemplateLookAhead` is its guess whether a
class head is a template argument: it reads on into later branches, so these affect the nesting stack exactly where
such a guess matters and a deleted line decides it.

Where code and documentation disagree, the model follows the code: the comment at
tools/gtest/src/gtest-port.cc:380 promises a match of the entire string for every valid regex, and the one at
tools/cpplint/cpplint.py:2198 that the lines after `#else` do not affect the nesting stack.

`Wrappers`, `Sets`, `MachineWords` and `Characters` hold an option type, the choice of an element from a set, the
widths of words and classes of characters. Loops over a C++ set or
map take the elements in an arbitrary order here, so every result holds for every order.
`dafny verify dfyconfig.toml` checks the whole project.

## Model

| member | source | states |
|---|---|---|
| `SimpleRegex.AtomMatchesItsClass` | tools/gtest/src/gtest-port.cc:203-222 | For every valid atom and every character, the branch-by-branch test agrees with the set of characters the atom stands for (digits, white space, word characters, their complements, the control characters, anything but a newline, or itself) |
| `SimpleRegex.EscapesByCode` | tools/gtest/src/gtest-port.cc:190-221 | The control characters, the classes and the dot by their character codes |
| `SimpleRegex.ReadInvertsRender` | tools/gtest/src/gtest-port.cc:232-286 | The concrete syntax is unambiguous: a string reads as a regex if and only if it is the rendering of that well-formed regex |
| `SimpleRegex.SuffixValidIsReadable` | tools/gtest/src/gtest-port.cc:244-283 | The validator's left-to-right rule with its one flag accepts a NUL-free suffix exactly when it parses into items and an optional final anchor |
| `SimpleRegex.ValidateRegex` | tools/gtest/src/gtest-port.cc:232-286 | Accepts a C string exactly when it is the rendering of a well-formed regex; rejects NULL |
| `SimpleRegex.OneCharacter` | tools/gtest/src/gtest-port.cc:246-281 | A regex of one character is accepted exactly if it is neither a backslash, nor one of the three repetitions, nor one of the seven unsupported characters, all written out |
| `SimpleRegex.Escape` | tools/gtest/src/gtest-port.cc:197-199 | A backslash before a character is accepted exactly for the eleven letters and the punctuation marks, all written out |
| `SimpleRegex.Repetition` | tools/gtest/src/gtest-port.cc:275-281 | A repetition after one unescaped character is accepted exactly if the character is supported and neither an anchor nor a repetition |
| `SimpleRegex.AcceptedEscapes` | tools/gtest/src/gtest-port.cc:263-274 | In every accepted regex each of the seven unsupported characters, wherever it stands, is behind an odd number of backslashes, and so are a caret that is not first and a dollar that is not last |
| `SimpleRegex.MatchesHeadStep` | tools/gtest/src/gtest-port.cc:298-316 | A prefix match of an item followed by others exists exactly when some word of the item can be split off and the rest matches; this is what trying every count decides |
| `SimpleRegex.MatchRepetitionAndRegexAtHead` | tools/gtest/src/gtest-port.cc:295-317 | For every atom, each of ? * + and every valid rest, true exactly when some prefix is in the language of the item followed by the rest; never gives up early or late |
| `SimpleRegex.MatchRegexAtHead` | tools/gtest/src/gtest-port.cc:322-348 | Terminates through the mutual recursion and is true exactly when some prefix of the string (all of it under a final $) is in the denotational language of the items |
| `SimpleRegex.HeadIsSpanAt` | tools/gtest/src/gtest-port.cc:366-369 | Matching at the head of the suffix at i is matching a span that starts at i |
| `SimpleRegex.MatchRegexAnywhere` | tools/gtest/src/gtest-port.cc:358-371 | True exactly when both arguments are given and some substring, anchored as ^ and $ say, is in the language |
| `SimpleRegex.BuildFullPattern` | tools/gtest/src/gtest-port.cc:404-422 | The buffer filled in place, read as a C string up to its terminator, is the regex with the missing anchors added at its two ends |
| `SimpleRegex.RE.Init` | tools/gtest/src/gtest-port.cc:392-423 | The object knows whether its pattern is a well-formed regex, and if so keeps the doubly anchored pattern |
| `SimpleRegex.RE.PartialMatch` | tools/gtest/src/gtest-port.cc:387-389 | True exactly when the regex is valid, the subject is not NULL and some substring of it, anchored as the regex says, is in the language |
| `SimpleRegex.RE.FullMatch` | tools/gtest/src/gtest-port.cc:381-383 | For a valid regex that does not end in an escaped dollar, true exactly when the whole string is in the language; for one that does, true exactly when some prefix is; false for a NULL subject |
| `SimpleRegex.FullPatternReads` | tools/gtest/src/gtest-port.cc:411-420 | The pattern built for full matches reads as the same items anchored at both ends, except that the end anchor is missing when the regex ends in an escaped dollar |
| `SimpleRegex.FullMatchExact` | tools/gtest/src/gtest-port.cc:404-422 | A full match means a match of the whole string, for all strings, if and only if the regex does not end in an escaped dollar |
| `SimpleRegex.EscapedDollarMismatch` | tools/gtest/src/gtest-port.cc:419-420 | For every valid regex that ends in an escaped dollar there is a string that is fully matched although it is not in the language |
| `Perf.Kernel.Open` | src/utils/perf_event.cpp:12-17 | A successful open returns a descriptor that was not open and opens it on the given counter; a failed one changes nothing |
| `Perf.Kernel.Read` | src/sysinfo/vm/dynamic/cache_miss.cpp:374-395 | A read yields the kernel's answer at that call, which is logged for the descriptor, or fails, which is logged for the thread |
| `Perf.Kernel.Close` | src/sysinfo/vm/dynamic/cache_miss.cpp:404-408 | Closing removes an open descriptor and counts as a fault when the descriptor is not open |
| `CacheMissSampler.OpenFds` | src/sysinfo/vm/dynamic/cache_miss.cpp:235-258 | Either all opens succeed and four new distinct descriptors are open, one per counter of the thread, or one open fails and the open descriptors are exactly those from before |
| `CacheMissSampler.CloseFds` | src/sysinfo/vm/dynamic/cache_miss.cpp:300-306 | Closes exactly the entry's four descriptors, each once |
| `CacheMissSampler.SecondReadOf` | src/sysinfo/vm/dynamic/cache_miss.cpp:386-395 | The second time is the value just read from the descriptor and the count is its increase over the first time, or 0 for a counter that went backwards; a failed read changes nothing |
| `CacheMissSampler.FirstRead` | src/sysinfo/vm/dynamic/cache_miss.cpp:260-271 | All four first times are the values just read from the entry's own descriptors, or one read fails and all readings and counts of the entry are cleared |
| `CacheMissSampler.SecondRead` | src/sysinfo/vm/dynamic/cache_miss.cpp:273-285 | All four counts are the increases to the values just read from the entry's own descriptors, or one read fails and all four are zero |
| `CacheMissSampler.AgreeAdd` | src/sysinfo/vm/dynamic/cache_miss.cpp:98-104 | Adding an entry with four fresh descriptors keeps the entries and the open descriptors in one-for-one agreement |
| `CacheMissSampler.AgreeRemove` | src/sysinfo/vm/dynamic/cache_miss.cpp:111-115 | Removing an entry with its descriptors keeps the agreement, so no other entry loses a descriptor |
| `CacheMissSampler.OpenIsDisjointUnion` | src/sysinfo/vm/dynamic/cache_miss.cpp:94-159 | Under the invariant the open descriptors are the disjoint union of the entries' descriptors, four for each entry |
| `CacheMissSampler.OpenCount` | src/sysinfo/vm/dynamic/cache_miss.cpp:94-159 | There are exactly four times as many open descriptors as watched threads; none when no thread is watched |
| `CacheMissSampler.CacheMiss.StartOne` | src/sysinfo/vm/dynamic/cache_miss.cpp:98-108 | A thread already watched is left alone; another is watched, and no longer counts as failed, exactly if none of its opens fails |
| `CacheMissSampler.CacheMiss.DrainStarts` | src/sysinfo/vm/dynamic/cache_miss.cpp:98-109 | Every queued thread ends up watched unless its open failed; duplicates in the queue do no harm; descriptors stay accounted for |
| `CacheMissSampler.CacheMiss.StopOne` | src/sysinfo/vm/dynamic/cache_miss.cpp:111-119 | Exactly this thread is dropped, and its descriptors are closed if it was watched |
| `CacheMissSampler.CacheMiss.DrainStops` | src/sysinfo/vm/dynamic/cache_miss.cpp:111-120 | Exactly the queued threads are dropped, also when one is queued several times, and no descriptor is closed twice |
| `CacheMissSampler.CacheMiss.ReadAll` | src/sysinfo/vm/dynamic/cache_miss.cpp:122-140 | A round of first or of second readings, in any order of the entries: every entry holds the values last read from its own descriptors, undisturbed by the readings of the others, or is cleared after a failed read, and exactly the threads with a failed read are queued for stop, perhaps once more |
| `CacheMissSampler.CacheMiss.StartSample` | src/sysinfo/vm/dynamic/cache_miss.cpp:94-130 | After both drains and the first readings the queue of stops holds exactly the failed readers; the watched threads are bounded by the old ones and the queues, and for disjoint queues the set of failed threads is exactly the old one without the new threads, plus failed opens and failed reads |
| `CacheMissSampler.CacheMiss.Refresh` | src/sysinfo/vm/dynamic/cache_miss.cpp:161-172 | After one round every count is the second value read from its descriptor minus the first, or 0 when it went back; it is 0 after a failed second reading, and the whole second value after a failed first one, because clearing sets the first time to zero |
| `CacheMissSampler.CacheMiss.Clear` | src/sysinfo/vm/dynamic/cache_miss.cpp:150-159 | No descriptor remains open, none was closed twice, and nothing is watched or queued |
| `VmCacheMissTracker.VmCacheMiss.Collect` | src/sysinfo/vm/dynamic/vm_cache_miss.cpp:124-133 | In any order of the VMs: the collected threads are those of all VMs, and the volatile index points each volatile thread to a VM that has it while other entries stay as they were, stale ones included |
| `VmCacheMissTracker.VmCacheMiss.Track` | src/sysinfo/vm/dynamic/vm_cache_miss.cpp:135-149 | The difference to the last round is queued, and the start and stop queues are disjoint when the sampler drains them although failed reads have queued stops of their own |
| `VmCacheMissTracker.VmCacheMiss.Sample` | src/sysinfo/vm/dynamic/vm_cache_miss.cpp:153 | The sampler's refresh restores the invariant; of the threads that were tracked before, exactly those still tracked without a failure are watched |
| `VmCacheMissTracker.VmCacheMiss.CalVmMissRate` | src/sysinfo/vm/dynamic/vm_cache_miss.cpp:87-104 | A callback adds the thread's four counts to the VM the stable index names, else the volatile one, else to none, and attributes no thread differently although a missing key is inserted |
| `VmCacheMissTracker.VmCacheMiss.Attribute` | src/sysinfo/vm/dynamic/cache_miss.cpp:141-145 | The callbacks, in any order, leave for every VM an entry exactly when it has watched threads, holding their sums modulo 2^64 |
| `VmCacheMissTracker.StableFirst` | src/sysinfo/vm/dynamic/vm_cache_miss.cpp:90-97 | A VM that the stable index names is taken whatever the volatile index says, the volatile one only when the stable one names none, and a start time of 0 names none |
| `VmCacheMissTracker.VmCacheMiss.Refresh` | src/sysinfo/vm/dynamic/vm_cache_miss.cpp:118-156 | A round keeps the invariant: watched threads are tracked ones, a tracked thread is unwatched only after an open or a read of it failed since it was added; every VM's counters are the sums, over its watched threads, of the increases between the values read from their descriptors, attributed by the stable index first and then by a volatile index that points this round's volatile threads to a VM having them and keeps every other entry of the old index |
| `VmCacheMissTracker.VmCacheMiss.Clear` | src/sysinfo/vm/dynamic/vm_cache_miss.cpp:158-167 | Nothing is tracked, watched or attributed and no descriptor is open |
| `VmCacheMissTracker.VmCacheMiss.Run` | src/sysinfo/vm/dynamic/vm_cache_miss.cpp:169-176 | Over any number of rounds with any failures the invariant holds, and when the run stops every descriptor has been closed exactly once |
| `VmCacheMissTracker.SumCountsRemove` | src/sysinfo/vm/dynamic/cache_miss.cpp:141-145 | The sum over a set of threads can be taken apart at any of its threads: it does not depend on the order of the callbacks |
| `VmCacheMissTracker.HoldsSumAdd` | src/sysinfo/vm/dynamic/vm_cache_miss.cpp:98-102 | One thread's wrapping additions to an entry keep the entry equal to the sums modulo 2^64 of the threads added so far |
| `VmCacheMissTracker.SumsAdd` | src/sysinfo/vm/dynamic/vm_cache_miss.cpp:90-102 | An attributed thread changes the entry of its VM only and keeps every VM's sums |
| `VmCacheMissTracker.SumsSkip` | src/sysinfo/vm/dynamic/vm_cache_miss.cpp:91-96 | An unattributed thread changes no VM's sums |
| `VmCacheMissTracker.TotalsAgree` | src/sysinfo/vm/dynamic/vm_cache_miss.cpp:87-104 | Summing per VM and then over the VMs is summing over all threads attributed to them |
| `VmCacheMissTracker.TableTotal` | src/sysinfo/vm/dynamic/vm_cache_miss.cpp:87-104 | The total of the VM table equals the total over all attributed threads, modulo 2^64 |
| `CpuUsageSampler.WrappedDelta` | src/sysinfo/vm/dynamic/cpu_usage.cpp:213-218 | The 32-bit difference of two truncated readings is the true increase when that is below 2^32, also across a wrap-around |
| `CpuUsageSampler.Words` | include/sysinfo/vm/dynamic/cpu_usage.h:84-89 | A counter's field is its reading modulo 2^32, and a conversion to int the value congruent to it modulo 2^32 between -2^31 and 2^31 - 1 |
| `CpuUsageSampler.SystemUsageIsBusyShare` | src/sysinfo/vm/dynamic/cpu_usage.cpp:58-59 | With idle time at most total time the usage is the busy percentage rounded down, and lies in 0..100 |
| `CpuUsageSampler.DeltasTelescope` | src/sysinfo/vm/dynamic/cpu_usage.cpp:314-327 | For a thread whose user plus system time never decreases, the deltas over consecutive sightings add up to the increase of that time since the first nonzero one |
| `CpuUsageSampler.TelescopeFrom` | src/sysinfo/vm/dynamic/cpu_usage.cpp:314-327 | The same from any earlier state of the thread's entry, whether it had a reading or not |
| `CpuUsageSampler.UpdatedDelta` | src/sysinfo/vm/dynamic/cpu_usage.cpp:314-333 | A sighting stores the task's user plus system time, its processor and process; the delta is the increase since the last stored time, and 0 without one |
| `CpuUsageSampler.ListedThread` | src/sysinfo/vm/dynamic/cpu_usage.cpp:269-277 | A thread listed in a pass, whatever else is: its entry shows its task, its delta is the increase of user plus system time since its entry before the pass, and without such an entry delta and usage are 0 |
| `CpuUsageSampler.AbsentStartsAfresh` | src/sysinfo/vm/dynamic/cpu_usage.cpp:283-288 | A thread that one pass does not list has delta and usage 0 when the next one lists it |
| `CpuUsageSampler.NoTimeNoUsage` | src/sysinfo/vm/dynamic/cpu_usage.cpp:279-280 | On the first refresh, and whenever the clocks did not advance, every listed process and thread has usage 0 |
| `CpuUsageSampler.SumInt32IsSum` | src/sysinfo/vm/dynamic/cpu_usage.cpp:275 | The running sum in a 32-bit int is the true sum when that fits |
| `CpuUsageSampler.UsageIsPercentage` | src/sysinfo/vm/dynamic/cpu_usage.cpp:329-333 | Without overflow a thread's usage is its ticks in percent of one CPU's share of the system's ticks, rounded down, and at most 100 for every CPU |
| `CpuUsageSampler.UsageMonotone` | src/sysinfo/vm/dynamic/cpu_usage.cpp:329-333 | Without overflow more ticks never give a smaller usage |
| `CpuUsageSampler.AverageBetween` | src/sysinfo/vm/dynamic/cpu_usage.cpp:279-280 | The sum of a process's deltas lies between the number of threads times some delta and the number of threads times some delta |
| `CpuUsageSampler.ProcessBetweenThreads` | src/sysinfo/vm/dynamic/cpu_usage.cpp:279-280 | Without overflow and with at least one task, the process usage lies between the usages of two of its threads |
| `CpuUsageSampler.ProcessUsageOfAverage` | src/sysinfo/vm/dynamic/cpu_usage.cpp:279-280 | Without overflow the usage of a process is the usage of its threads' average delta |
| `CpuUsageSampler.UsageWraps` | src/sysinfo/vm/dynamic/cpu_usage.cpp:275-280 | Concrete usages that overflow: the products wrap around before the division, a quotient above 2^31 turns negative, a large delta is added as a negative int, and a negative sum is divided as an unsigned one |
| `CpuUsageSampler.ReportedUsageBetween` | src/sysinfo/vm/dynamic/cpu_usage.cpp:269-281 | The same for the thread table after a pass: the reported process usage lies between two reported thread usages |
| `CpuUsageSampler.CpuUsage.Clear` | src/sysinfo/vm/dynamic/cpu_usage.cpp:161-174 | Clearing returns every counter to zero, with nothing watched, queued or known |
| `CpuUsageSampler.CpuUsage.RefreshSystem` | src/sysinfo/vm/dynamic/cpu_usage.cpp:200-220 | For monotone clocks that advance by less than 2^32 the stored deltas are the true ones, and the system usage is the busy percentage of the time that passed, rounded down, between 0 and 100; it is 0 on the first refresh and when the clocks did not advance |
| `CpuUsageSampler.CpuUsage.RefreshWatching` | src/sysinfo/vm/dynamic/cpu_usage.cpp:222-241 | Watched afterwards are the old and the queued starts minus the queued stops: a pid in both queues is lost; kept usages stay |
| `CpuUsageSampler.CpuUsage.ReadTasks` | src/sysinfo/vm/dynamic/cpu_usage.cpp:270-277 | After a process's tasks its entry holds the wrapping sum of their deltas and every task's thread entry is updated from the state before |
| `CpuUsageSampler.CpuUsage.ReadProcess` | src/sysinfo/vm/dynamic/cpu_usage.cpp:269-281 | A process's usage is computed from exactly its own tasks' deltas |
| `CpuUsageSampler.CpuUsage.RefreshThread` | src/sysinfo/vm/dynamic/cpu_usage.cpp:243-288 | After a pass every listed process has the usage of its threads, every listed thread is updated from its entry before the pass, and every other thread is reset so that its deltas start afresh |
| `CpuUsageSampler.CpuUsage.Refresh` | src/sysinfo/vm/dynamic/cpu_usage.cpp:176-198 | One refresh: the clocks advance by their true deltas, both queues are drained, every listed process has the usage of its threads and every other watched one keeps its own, every listed thread is updated and all others are reset |
| `CpuUsageSampler.CpuUsage.Run` | src/sysinfo/vm/dynamic/cpu_usage.cpp:301-305 | Over any number of refreshes in each of which a thread is listed, whatever else is listed, the deltas the table holds for it after each refresh add up to the increase of its user plus system time since its last reading before the run or, without one, since its first nonzero reading |
| `VmCpuUsageTracker.StepKeepsBalance` | src/sysinfo/vm/dynamic/vm_cpu_usage.cpp:93-132 | A push, drain or clear keeps "tracked = (watched and queued starts) minus queued stops" if and only if it does not queue for start a pid that is queued for stop |
| `VmCpuUsageTracker.RunKeepsBalance` | src/sysinfo/vm/dynamic/vm_cpu_usage.cpp:93-132 | Any interleaving of these steps by any number of callers keeps the balance at every point if and only if none of its pushes restarts a pid that is queued for stop |
| `VmCpuUsageTracker.SingleCaller` | src/sysinfo/vm/dynamic/vm_cpu_usage.cpp:93-125 | With one caller every run is balanced, and after each refresh exactly the tracked pids are watched and both queues are empty |
| `VmCpuUsageTracker.ClearForgets` | src/sysinfo/vm/dynamic/vm_cpu_usage.cpp:127-132 | A clear forgets tracked and watched pids and both queues: after it, a push and a drain watch exactly the pushed pids, even those that were queued for stop |
| `VmCpuUsageTracker.RestartIsLost` | src/sysinfo/vm/dynamic/vm_cpu_usage.cpp:103-117 | A pid that is tracked but unwatched and unqueued stays so however often the same set is refreshed |
| `VmCpuUsageTracker.RestartLosesPid` | src/sysinfo/vm/dynamic/cpu_usage.cpp:222-241 | A concrete run: a pid pushed out and pushed in again before a drain ends up tracked and unwatched |
| `VmCpuUsageTracker.VmCpuUsage.Push` | src/sysinfo/vm/dynamic/vm_cpu_usage.cpp:95-119 | The first lock region is the protocol's push step |
| `VmCpuUsageTracker.VmCpuUsage.Refresh` | src/sysinfo/vm/dynamic/vm_cpu_usage.cpp:93-125 | For the only caller: after a refresh the watched processes, the tracked pids and the VM pids are the same set |
| `VmCpuUsageTracker.VmCpuUsage.Clear` | src/sysinfo/vm/dynamic/vm_cpu_usage.cpp:127-132 | From any state nothing is tracked, watched or queued, which is the protocol's clear step |
| `NaiveScheduler.EmplaceKeepsOrder` | example/naive_scheduler.cpp:11-14 | Emplacing into the multimap keeps it ordered by usage |
| `NaiveScheduler.EmplaceAdds` | example/naive_scheduler.cpp:11-14 | Emplacing adds exactly the one VM, also among equal usages |
| `NaiveScheduler.EmplaceBehindEquals` | example/naive_scheduler.cpp:11-14 | The new element stands behind its equals, and the others keep their order |
| `NaiveScheduler.SortByUsage` | example/naive_scheduler.cpp:11-14 | The dealt sequence is a permutation of the VMs in ascending order of usage |
| `NaiveScheduler.TurnIsRemainder` | example/naive_scheduler.cpp:17-33 | The wrapping iterator stands at the step count modulo the number of nodes |
| `NaiveScheduler.DealInterleaves` | example/naive_scheduler.cpp:17-33 | Dealing ascending usages round-robin, negative ones included, the loads of two nodes interleave: the later node is ahead by at most the spread of the usages, or behind by at most the last one when the earlier has one VM more |
| `NaiveScheduler.CountsDiffer` | example/naive_scheduler.cpp:17-33 | The VM counts of two nodes are equal, or the earlier has exactly one more, according to where the iterator stands |
| `NaiveScheduler.LoadsBalanced` | example/naive_scheduler.cpp:17-33 | With non-negative usages the loads of any two positions differ by at most the largest usage and their counts by at most one |
| `NaiveScheduler.MyScheduler` | example/naive_scheduler.cpp:7-37 | Every VM is placed once, in ascending order of usage, on the node where the wrapping iterator stands, and exactly the threads of the VMs are bound, each to the node of its VM |
| `NaiveScheduler.Bind` | example/naive_scheduler.cpp:30-32 | Exactly the VM's threads are bound to the node; all other bindings stay |
| `NaiveScheduler.ScheduleBalanced` | example/naive_scheduler.cpp:7-37 | For every schedule of VMs with non-negative usages, the total usages of any two nodes differ by at most the largest usage of a single VM and their VM counts by at most one |
| `CpuList.InsertWindow` | src/sysinfo/host/static/node_cpu.cpp:249-263 | One window adds the CPUs between the numbers around its first dash, or its one number; nothing when a number is missing |
| `CpuList.ParseCpuList` | src/sysinfo/host/static/node_cpu.cpp:240-267 | The in-place index loop adds the CPUs of its windows in turn, each window as long as the index of its segment's end |
| `CpuList.WindowsOfText` | src/sysinfo/host/static/node_cpu.cpp:244-266 | On the text of a list the loop looks at one window per segment: the segment and as much of what follows it as the segment's start index is long |
| `CpuList.WindowAdds` | src/sysinfo/host/static/node_cpu.cpp:248-263 | The window of a run adds exactly the run; that of a single CPU adds it alone unless the text caught behind it holds a dash, and then everything up to the number after that dash |
| `CpuList.ParsedExact` | src/sysinfo/host/static/node_cpu.cpp:238-267 | The parser adds exactly the listed CPUs, for any number of segments, when no single CPU after the first segment is followed later by a run |
| `CpuList.ParsedExactly` | src/sysinfo/host/static/node_cpu.cpp:238-267 | On ascending lists of segments that do not touch, as the kernel writes them, the parser is exact if and only if every window of a single CPU holds no dash or reads the CPU's own number behind the first one |
| `CpuList.RunAfterSingleIsMisread` | src/sysinfo/host/static/node_cpu.cpp:248 | The list 0-1,3,5-6 is not read as the CPUs it lists |
| `CpuList.StoiDecimal` | src/sysinfo/host/static/node_cpu.cpp:254-255 | A decimal number is read back, whatever non-digit follows |
| `StrTools.StripsToUnique` | src/utils/str_tools.cpp:5-26 | A text has only one stripped form |
| `StrTools.Strip` | src/utils/str_tools.cpp:5-26 | The result is the text between the blank ends, starting and ending with other characters, or nothing |
| `StrTools.BlankCharacters` | src/utils/str_tools.cpp:11-19 | Newline, carriage return, tab and blank are stripped and no other character |
| `StrTools.Split` | src/utils/str_tools.cpp:28-47 | The result is the sequence of non-empty pieces between delimiters, in order |
| `StrTools.PiecesKeepText` | src/utils/str_tools.cpp:28-47 | No piece is empty or holds the delimiter, and together they are the text without its delimiters |
| `NodeTopology.ReadLine` | src/sysinfo/host/static/node_cpu.cpp:282-299 | A field line of the kernel gives its field for every number, a line of any other field is passed over, and exactly the blank lines end a record |
| `NodeTopology.FieldLinesRead` | src/sysinfo/host/static/node_cpu.cpp:287-293 | The lines that begin with processor, physical id and core id, spelled out, with any blanks before the colon and any number, are read as a processor, a socket and a core id |
| `NodeTopology.CpuinfoExample` | src/sysinfo/host/static/node_cpu.cpp:282-299 | Four lines as they stand in /proc/cpuinfo |
| `NodeTopology.ReadRecord` | src/sysinfo/host/static/node_cpu.cpp:282-300 | A whole record adds its processor under its own socket and core, whatever ids were carried over from earlier records and however many other lines lie between |
| `NodeTopology.ReadRecords` | src/sysinfo/host/static/node_cpu.cpp:282-300 | Reading well-formed records on top of tables that index earlier ones indexes them all: a key for exactly the sockets and cores that occur, each with exactly its hyper-threads |
| `NodeTopology.IndexesTwice` | src/sysinfo/host/static/node_cpu.cpp:282-300 | Indexing the same records once more gives the same tables |
| `NodeTopology.AddIncluded` | src/sysinfo/host/static/node_cpu.cpp:303-329 | In any order of the entries, the derived table holds for a key what it held before and exactly those inner keys whose hyper-threads are all among the outer key's |
| `NodeTopology.AddOne` | src/sysinfo/host/static/node_cpu.cpp:305-312 | One inner entry is added to exactly the outer keys that include it |
| `NodeTopology.GetKeyByValue` | src/sysinfo/host/static/node_cpu.cpp:57-68 | The first key in the map's order that holds the value, none exactly when no key holds it; on a table of disjoint sets the one key that holds it |
| `NodeTopology.GetValueByKey` | src/sysinfo/host/static/node_cpu.cpp:70-79 | The answer is empty exactly for a key the table does not know, and on a table of disjoint sets no other key has a value of the answer |
| `NodeTopology.LookupsInvert` | src/sysinfo/host/static/node_cpu.cpp:57-79 | On a table of disjoint sets a value is in the lookup by a key if and only if the lookup by the value gives that key |
| `NodeTopology.BasePartitions` | src/sysinfo/host/static/node_cpu.cpp:282-300 | With each processor listed once, the sockets and the cores each partition the hyper-threads |
| `NodeTopology.CoresRefineSockets` | src/sysinfo/host/static/node_cpu.cpp:290-297 | A core's hyper-threads are hyper-threads of the socket the core names |
| `NodeTopology.SocketCoreExact` | src/sysinfo/host/static/node_cpu.cpp:129-133 | The table by inclusion holds for a socket exactly the cores that name it, so answering with the core's own socket id equals the lookup that was commented out |
| `NodeTopology.DerivedDisjoint` | src/sysinfo/host/static/node_cpu.cpp:303-329 | A table by inclusion over disjoint sets is itself disjoint, so its lookups invert each other |
| `NodeTopology.RefreshedTopology` | src/sysinfo/host/static/node_cpu.cpp:213-225 | From well-formed records and node lists read as disjoint sets: all tables by node and socket are invertible, sockets and cores partition the processors, and a socket's cores are those that name it |
| `NodeTopology.BodyTwice` | src/sysinfo/host/static/node_cpu.cpp:220-222 | Running the refresh body twice on the same inputs changes nothing |
| `NodeTopology.NodeCpu.Clear` | src/sysinfo/host/static/node_cpu.cpp:199-211 | Clearing gives the empty index and takes the flag away |
| `NodeTopology.NodeCpu.RefreshNodeHpthread` | src/sysinfo/host/static/node_cpu.cpp:227-269 | Every node gains exactly the CPUs its lists are read as; a key appears only with a CPU; an exception is raised exactly when a list lacks a number |
| `NodeTopology.NodeCpu.RefreshSocketCoreHpthread` | src/sysinfo/host/static/node_cpu.cpp:271-301 | The base tables are what reading all lines in order makes of them, from any earlier contents; an exception is raised exactly when a field line lacks its number |
| `NodeTopology.NodeCpu.RefreshOthers` | src/sysinfo/host/static/node_cpu.cpp:303-329 | All three derived tables gain exactly what inclusion says |
| `NodeTopology.NodeCpu.RefreshBody` | src/sysinfo/host/static/node_cpu.cpp:220-222 | A body without exceptions relates all tables to those before; with one, the derived tables stay |
| `NodeTopology.NodeCpu.Refresh` | src/sysinfo/host/static/node_cpu.cpp:213-225 | With data nothing is touched; without, the body runs and the flag is set exactly when every number can be read |
| `CpuTopology.StanzasRead` | src/sysinfo/host/static/node_cpu.cpp:282-300 | The lines of well-formed cpuinfo - each processor's processor, physical id and core id lines, spelled out, in order, any other fields between them, a blank line at the end - are read as the records of its entries |
| `CpuTopology.CpusListed` | src/sysinfo/host/static/node_cpu.cpp:227-269 | For node lists that the parser reads exactly, what a node gains are the CPUs listed for it, in any number of lists |
| `CpuTopology.TextGivesTopology` | src/sysinfo/host/static/node_cpu.cpp:213-329 | From the text of the node lists and of cpuinfo, with each processor once and no CPU listed for two nodes: the node table is what is listed, sockets and cores partition the processors and hold exactly their own, a socket's cores are those that name it, a node's sockets and cores are those whose processors are listed for it, and every lookup by value inverts the lookup by key |
| `CpuTopology.FirstRefresh` | src/sysinfo/host/static/node_cpu.cpp:213-225 | The first refresh on such text succeeds, flags data and leaves this topology |
| `BracketMatcher.ScanSplit` | tools/cpplint/cpplint.py:1440-1451 | Scanning a text in two parts, passing the stack of open brackets on, is scanning it whole |
| `BracketMatcher.ThreePairs` | tools/cpplint/cpplint.py:1376-1378 | Exactly the three pairs of round, square and curly brackets enclose balanced words |
| `BracketMatcher.PlainWord` | tools/cpplint/cpplint.py:1348-1384 | A word without these six characters is balanced |
| `BracketMatcher.LoneBracket` | tools/cpplint/cpplint.py:1348-1384 | A single character is balanced exactly if it is none of the six |
| `BracketMatcher.ScanFindsBracketed` | tools/cpplint/cpplint.py:1335-1410 | From an opening bracket the scan ends after n characters if and only if these form a balanced word inside one matching pair of brackets |
| `BracketMatcher.MirrorBalanced` | tools/cpplint/cpplint.py:1457-1531 | Balanced words read from their other end, brackets turned, are balanced |
| `BracketMatcher.ForwardInvertsBackward` | tools/cpplint/cpplint.py:1335-1569 | Forward from a ends at b exactly if backward from b ends at a: exactly if the text between is a bracketed word |
| `BracketMatcher.FindEndOfExpressionInLine` | tools/cpplint/cpplint.py:1335-1410 | For every line, angle brackets and the guesses about operators included: just past the end that the line's scan finds, or failure, or the brackets still open at the end of the line |
| `BracketMatcher.CloseLineIsScan` | tools/cpplint/cpplint.py:1348-1410 | On a line without angle brackets that scan is the scan of the three kinds of brackets, about which the grammar theorems are proved |
| `BracketMatcher.PairCloses` | tools/cpplint/cpplint.py:1353-1399 | On a line with nothing that could make an angle bracket an operator, the scan from any of the four opening brackets, angle brackets included, ends just past the bracket that closes it over any proper nesting |
| `BracketMatcher.Guesses` | tools/cpplint/cpplint.py:1355-1410 | Five concrete lines: an arrow and a shift are no brackets, a closing bracket or a semicolon makes a pending angle bracket an operator, and a semicolon ends an unclosed list |
| `BracketMatcher.OperatorEnds` | tools/cpplint/cpplint.py:1361 | The word operator with only spaces behind it counts exactly if no word character precedes it |
| `BracketMatcher.FindStartOfExpressionInLine` | tools/cpplint/cpplint.py:1457-1531 | The mirror image of the forward scan on the same grammar, with the returned position at the opening bracket itself |
| `BracketMatcher.CloseOnIsScan` | tools/cpplint/cpplint.py:1446-1454 | Without angle brackets, carrying the stack from line to line finds the end of the scan of the whole remaining text, and none exactly when that scan has none |
| `BracketMatcher.OpenByScan` | tools/cpplint/cpplint.py:1551-1569 | Carrying the stack backwards finds the end of the mirrored scan of the whole preceding text |
| `BracketMatcher.CloseExpression` | tools/cpplint/cpplint.py:1413-1454 | For every text the end that carrying brackets from line to line finds; without angle brackets a position is returned if and only if the text from the given bracket up to it is a bracketed word, over any number of lines |
| `BracketMatcher.ReverseCloseExpression` | tools/cpplint/cpplint.py:1534-1569 | Returns a position if and only if the text from it up to the given bracket is a bracketed word |
| `BracketMatcher.CloseThenReverse` | tools/cpplint/cpplint.py:1413-1569 | Reversing from the bracket that was found returns exactly to the start |
| `BracketMatcher.ReverseThenClose` | tools/cpplint/cpplint.py:1413-1569 | Closing from the bracket that was found returns exactly to just past the start |
| `NestingTracker.BodyRestores` | tools/cpplint/cpplint.py:2366-2403 | Inside an open block any statements and nested braces leave the nesting stack as it was |
| `NestingTracker.DeclarationEnds` | tools/cpplint/cpplint.py:2374-2402 | A declared class or namespace is on the stack exactly until its body closes, a forward declaration until its semicolon |
| `NestingTracker.BracePushes` | tools/cpplint/cpplint.py:2374-2385 | An opening brace opens an unopened innermost block, and otherwise pushes an open block: of its own kind for extern C, marked as assembly behind asm, plain otherwise |
| `NestingTracker.NamespacesPushed` | tools/cpplint/cpplint.py:2291-2306 | A line's namespaces are pushed in order, each open exactly if its brace is on the line |
| `NestingTracker.NamespaceLine` | tools/cpplint/cpplint.py:2291-2403 | A line of namespaces with all their braces, and any statements and nested braces behind them, leaves exactly the open namespaces on top; with as many closing braces it leaves the stack as it was |
| `NestingTracker.HeadLine` | tools/cpplint/cpplint.py:2291-2397 | A namespace or class whose brace is not on its line stays unopened on top, of its kind; the next opening brace opens it, whatever precedes that brace, and a semicolon drops it |
| `NestingTracker.NamespaceStaysOpen` | tools/cpplint/cpplint.py:2304-2397 | Two lines, a namespace with its brace and a statement, leave the open namespace on the stack |
| `NestingTracker.ArgumentsDeclareNoClass` | tools/cpplint/cpplint.py:2265-2286 | Over any lines during which a parenthesis of the innermost block stays open, class heads are taken for arguments: no block is pushed or popped, and the block's count is the sum of the lines' counts |
| `NestingTracker.AsmStatement` | tools/cpplint/cpplint.py:2272-2286 | An inline assembly statement is marked as inside from its head through any lines until the line that closes its parenthesis, and leaves the rest of the stack as it was |
| `TemplateLookAhead.CloseOnLooks` | tools/cpplint/cpplint.py:2173-2181 | Closing an angle bracket over several lines and searching on from there is the same as reading the lines one by one |
| `TemplateLookAhead.InTemplateArgumentList` | tools/cpplint/cpplint.py:2132-2182 | True exactly when the text from the position on, read line by line, decides for a template argument before the file ends; the end of the file decides against it |
| `TemplateLookAhead.FirstTelling` | tools/cpplint/cpplint.py:2148-2165 | The first of nine characters decides: three against a template argument, five for one, and an angle bracket that looks like a shift or a comparison against it; other characters do not matter |
| `NestingTracker.MattersForHeads` | tools/cpplint/cpplint.py:2313-2333 | Without a class head or among open parentheses the look-ahead makes no difference to the stack; for a head that could be declared on a line with nothing more it does |
| `NestingTracker.PreprocessAgrees` | tools/cpplint/cpplint.py:2205-2238 | A directive that leaves the later branches of all conditionals leaves the run over all lines in the state of the run over the first branches |
| `NestingTracker.SkippedAgrees` | tools/cpplint/cpplint.py:2205-2238 | Inside a later branch no line, whatever its braces and directives, reaches the checkpoints that will be restored |
| `NestingTracker.LaterBranchesExactly` | tools/cpplint/cpplint.py:2184-2403 | For any lines, balanced or not, with arbitrary braces between and at any nesting of conditionals: after every line outside later branches the state is that of the lines with every branch but the first of each conditional deleted, if and only if every look-ahead that matters decides alike with and without the deleted lines |
| `NestingTracker.LaterBranchesDoNotMatter` | tools/cpplint/cpplint.py:2184-2403 | Under that condition the two runs stay related to the end of the lines, inside later branches too |
| `NestingTracker.FirstBranchesDecide` | tools/cpplint/cpplint.py:2184-2403 | Under that condition, when the lines end outside later branches, stack and checkpoints are those of the lines with every branch but the first of each conditional deleted |
| `NestingTracker.LaterBranchStarts` | tools/cpplint/cpplint.py:2206-2220 | Every later branch of a conditional starts from the nesting stack before its #if, whatever the branches before it hold |
| `NestingTracker.HeadsDecidedAgree` | tools/cpplint/cpplint.py:2329 | The condition holds when the look-ahead of every class head is decided, or the file ends, before the next deleted line; so it does for lines without class heads |
| `NestingTracker.DeletedLineDecides` | tools/cpplint/cpplint.py:2148-2165 | Six lines, class Foo, #if A, #else, a closing angle bracket, #endif, an opening brace, for which it fails: with the deleted branch they open a plain block, without it a class |
| `NestingTracker.NestingState.UpdatePreprocessor` | tools/cpplint/cpplint.py:2205-2238 | A directive saves, restores or drops a checkpoint as the conditional model says; stray directives change nothing |
| `NestingTracker.NestingState.Update` | tools/cpplint/cpplint.py:2241-2403 | A line's loops over declarations and tokens, with the look-ahead over the lines that follow, are the step about which the branch theorem is proved |
| `NestingTracker.NestingState.ProcessFile` | tools/cpplint/cpplint.py:2184-2403 | After all lines of a file that ends outside later branches the state is that of the first branches alone, provided no look-ahead that matters is decided by a deleted line |
| `StringLiteral.PrintAsCharLiteralTo` | tools/gtest/src/gtest-printers.cc:150-192 | Appends the character's spelling and reports how it was written |
| `StringLiteral.PrintAsNarrowStringLiteralTo` | tools/gtest/src/gtest-printers.cc:196-213 | The spelling inside a string literal: single quotes plain, double quotes escaped |
| `StringLiteral.PrintCharsAsStringTo` | tools/gtest/src/gtest-printers.cc:261-275 | The loop with its one flag appends the quoted spelling of all bytes, broken after a hexadecimal escape before a hexadecimal digit |
| `StringLiteral.Spelling` | tools/gtest/src/gtest-printers.cc:150-207 | How each byte is spelled: printable characters as themselves, eight control characters, the backslash and the double quote by their escapes, and every other byte by its one or two upper-case hexadecimal digits |
| `StringLiteral.EscapeDigits` | tools/gtest/src/gtest-printers.cc:266 | The characters that a hexadecimal or an octal escape takes, written out |
| `StringLiteral.ReadBack` | tools/gtest/src/gtest-printers.cc:261-275 | Read by the rules of the standard, the printed text denotes the bytes, except that a NUL takes the up to two octal digits after it into its escape |
| `StringLiteral.DenotedExact` | tools/gtest/src/gtest-printers.cc:152-154 | What is denoted equals what was printed if and only if no NUL is directly followed by an octal digit |
| `StringLiteral.PrintedDenotesBytes` | tools/gtest/src/gtest-printers.cc:261-275 | For every byte string: the printed text, read as adjacent string literals and concatenated, denotes the printed bytes if and only if no NUL is directly followed by an octal digit |
| `StringLiteral.BreakIsNeeded` | tools/gtest/src/gtest-printers.cc:266-271 | A hexadecimal escape directly before a hexadecimal digit never denotes the two characters; with the break it always does |
| `VmIdentity.EqualIsIncomparable` | src/sysinfo/vm/dynamic/vm_base.cpp:398-410 | Two ids are equal exactly when neither is less than the other |
| `VmIdentity.LaterComesFirst` | src/sysinfo/vm/dynamic/vm_base.cpp:398-410 | Of two processes started more than two seconds apart the later one comes first, whatever their pids; of two others the one with the smaller pid, and they are equal exactly if the pids are |
| `VmIdentity.OrderIsWeakExactly` | src/sysinfo/vm/dynamic/vm_base.cpp:404-410 | On all ids with given start times the order is a strict weak order if and only if being within two seconds is transitive on these times |
| `VmIdentity.TwoSecondsApart` | src/sysinfo/vm/dynamic/vm_base.cpp:398-410 | Start times 0, 2 and 4 are such that the order is not a strict weak order: the first id equals the second, the second the third, but not the first the third |
| `VmIdentity.ElapsedSeconds` | src/sysinfo/vm/dynamic/vm_base.cpp:238-249 | Of every elapsed time as ps renders it, with any leading zeros before the days, the loop-free parse gives that time in seconds |
| `VmIdentity.ElapsedByFields` | src/sysinfo/vm/dynamic/vm_base.cpp:243-249 | Any digits in the three formats: days, hours and minutes count 86400, 3600 and 60 seconds |
| `Decimals.SignedNumber` | src/sysinfo/vm/dynamic/vm_base.cpp:244-248 | A sign before a number is read |
| `Decimals.BlankBefore` | src/sysinfo/vm/dynamic/vm_base.cpp:244-248 | The six blank characters before a number are passed over |
| `VmIdentity.SpellRead` | src/sysinfo/vm/dynamic/vm_base.cpp:243-249 | Days, hours, minutes and seconds, written in the shortest of the three formats and with any leading zeros before the days, are read back |
| `VmIdentity.ElapsedInvertsRender` | src/sysinfo/vm/dynamic/vm_base.cpp:235-249 | Every elapsed time, rendered as ps renders it, is parsed back to the same number of seconds |
| `CpuBinding.FindCpu` | src/utils/microbench.c:523-534 | The first CPU with a request left, or none when all are used up |
| `CpuBinding.BindThreads` | src/utils/microbench.c:509-535 | Exactly as many threads are bound as the smaller of threads and requests; the bound ones come first, in order of their CPUs; for every CPU, bound and remaining add up to requested |
| `CpuBinding.BindNext` | src/utils/microbench.c:525-528 | Binding one more thread to the first CPU left keeps order and conservation |
| `PerfBuffer.MaskIsRemainder` | src/utils/perf_event.cpp:30-32 | Masking with a power of two minus one is the remainder modulo that power |
| `PerfBuffer.FetchIsRecordExactly` | src/utils/perf_event.cpp:31-39 | The two-branch copy yields the record, whatever lies behind the mapping, if and only if the record does not wrap around: the wrap length counts the header page |
| `PerfBuffer.RecordsFitExactly` | src/utils/perf_event.cpp:30-39 | Every record fits without wrapping around if and only if its size divides the ring |
| `PerfBuffer.WrappingRecord` | src/utils/perf_event.cpp:31-38 | A record of three bytes in a ring of eight that is copied with a byte from behind the ring |
| `PerfBuffer.Buffer.Produce` | src/utils/perf_event.cpp:23-27 | A producer that stays within the ring keeps every unread byte of the stream in it |
| `PerfBuffer.Buffer.Read` | src/utils/perf_event.cpp:19-42 | A failed read changes nothing; otherwise the next record of the stream is delivered and the tail moves behind it, never past the head |
| `PerfBuffer.Buffer.Skip` | src/utils/perf_event.cpp:55-63 | Skips the records asked for but never past the head; what was delivered stays the produced stream without the skipped records, in order |
| `PerfBuffer.KeptOfLonger` | src/utils/perf_event.cpp:19-42 | What was delivered does not change when more is produced |
| `PerfBuffer.KeptOfSkipped` | src/utils/perf_event.cpp:55-63 | Skipping any number of records delivers nothing |

## Left out

- Input and output: files under /proc and /sys, `ps`, `readproc`, `perf_event_open` and `read` are inputs and oracles; `ioctl`, `mmap`, `sched_setaffinity`, sleeps, logging and the callbacks of users are not modelled.
- Threads and locks: every lock region is one atomic step. In `VmCacheMissTracker.VmCacheMiss.Refresh` the regions of one refresh follow each other, as with a single refresher.
- NaiveScheduler.MyScheduler: requires at least one node, because the source dereferences the end of an empty node set; the hyper-threads of a node, which the source passes on, are represented by the node.
- CpuUsageSampler.CpuUsage.Refresh: a listed process has at least one task (the source divides by their number) and every task and process is listed once.
- CpuUsageSampler.SystemUsageIsBusyShare: the double-precision arithmetic is real arithmetic here, so rounding is not captured.
- CpuUsageSampler.ProcessBetweenThreads: one way only; it says nothing about deltas whose products overflow 32 bits.
- VmCacheMissTracker.VmCacheMiss.CalVmMissRate: the ratios derived from the counters are left out, and VM ids are compared exactly, while the tolerant comparison is treated in `VmIdentity`.
- VmCacheMissTracker.VmCacheMiss.Attribute: the callbacks see the directory of stable threads of the same round.
- NodeTopology.NodeCpu.RefreshBody: what a refresh that throws leaves in the base tables is not described.
- NodeTopology.NodeCpu.Refresh: likewise after a refresh that throws, except that no data is flagged.
- NodeTopology.ReadLine: a field line without a number is an exception here, where the source reads past the end of a vector, and numbers do not overflow.
- CpuList.ParsedExactly: the equivalence is proved for ascending lists of segments that do not touch, which is what the kernel writes; the sufficient condition of `CpuList.ParsedExact` needs no order.
- VmIdentity.ElapsedSeconds: days and seconds are unbounded, so the 64-bit overflow of absurd inputs is not captured.
- PerfBuffer.Buffer.Read: positions are unbounded, so the wrap-around of the 64-bit head and tail is not captured.
- PerfBuffer.Buffer.Skip: skips whole records; negative sizes are not described.
- BracketMatcher.CloseExpression: the grammar characterisation is for text without `<` and `>`, whose handling is a heuristic; so are BracketMatcher.ReverseCloseExpression and the round trips, whose backward scan is modelled for such text only. Strings and comments are assumed elided.
- NestingTracker.NestingState.Update: a line comes as its elided text and what the line's own regular expressions find in it; access specifiers, the class and namespace records and the style checks at their ends are left out.
- SimpleRegex.ValidateRegex: error messages are left out, and positions do not overflow an int.
- StringLiteral.PrintCharsAsStringTo: reading ignores trigraphs; the printers of wide strings and of single characters with their codes are left out.
- The POSIX branch of Google Test's regular expressions, its death tests, flags and shuffling, and the style rules of cpplint: foreign engines or easy members.
- The node distance matrix (src/sysinfo/host/static/node_test_dist.cpp), parameter clearing (src/framework/vm.cpp), the virsh output parsers (src/sysinfo/vm/static/vm_node_info.cpp), memory migration and the forwarding getters: no property that spans operations.
