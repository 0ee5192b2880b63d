# Real-time tool chain: a verified model

A Dafny model of the parts of the HiPeRT tool chain that compute, schedule or rewire something,
with proofs of what they promise:

- the **response-time analysis** of `Core.java`, against a tick-by-tick fixed-priority scheduler;
- the **pointer-chain builders** of lmbench (`lib_mem.c`, `cache.c`, `lat_dram_page.c`), as arrays
  of word indices that must form one cycle;
- the **mode-change protocol** of `rtmode.c` and `ptask.c`, as interleaved steps;
- the **benchmark harness protocol** of `lib_timing.c`: one parent, n children, four pipes;
- the **directory-tree generator** of `lat_fs.c`;
- smaller stateful parts: the **descriptor free list** (`ptask.c`), the **option parser**
  (`getopt.c`), **execution-time statistics** (`tstat.c`, `ptime.c`).

`dafny verify dfyconfig.toml` checks everything.

## How to read it

| files | subject |
|---|---|
| FixedPoint, ResponseTime, TwoStage, Analysis | the recurrences on values: when each loop stops, what it returns, how the two analyses relate |
| Cores | class `Core` with its loops, each method proved equal to its recurrence |
| Scheduler, Exactness, WorstResponse, DeadlineMiss | the scheduler, what the computed numbers mean on it, and when a number bounds every job |
| Chains, BitReversal, Layouts | cycles in memory, the bit-reversal tables, the page/line/word walk |
| LibMem, LineChains, Thrash, Setup | the builders of `lib_mem.c` and their set-up |
| Cache, Chunks, DramPage | measuring a prefix, leaving a chunk out, the walk check, regrouping |
| Measurements | from nothing to the measured walk: set-up and measuring code put together |
| ModeChange, ModeSafety, ModeUnsafe, ModeProgress, RtMode | the protocol, its safety, the failing runs, that changes get through, the C functions |
| Samples, Harness, HarnessSafety, HarnessResults, HarnessRoom | sorted results, the harness protocol, its safety, what is collected, room for the merged results |
| DirectoryTree, FreeList, Getopt, ExecTime | the remaining parts, one file each |
| Arithmetic, Collections | shared facts about products, rounding up, and counting |

Time in the analysis is counted in whole ticks of one instruction (5 ns, `Runnable.java:13`), so
numbers are exact integers instead of doubles; task order is the order of the list. The methods of
`Core` ask that their loops end; the `...LoopStops` lemmas say exactly when they do. Memory is an
array of words, a pointer is an index; page, line and word sizes are in words. Random numbers, clock
readings and measured times are arbitrary parameters. Integers are unbounded; C division is written
out as truncation (`ExecTime.Quotient`) wherever an operand can be negative.

Assumptions of the mode-change model: a mode lists a task at most once; tasks are created deferred
and are suspended before the first request; only `rtmode_changemode` activates the manager and only
the manager activates mode tasks; condition variables do not wake up spuriously (`rtmode.c:152` waits
under `if`); post-then-suspend (`ptask.c:292-294`) is one step; storing a request and advancing
`head` is one step; the request queue has room (`cap` is a parameter, and a request is only possible
below it); there are at most 16 modes. A request is the number of a mode or -1: `rtmode_changemode`
takes any int and nothing checks it, so that the manager would read outside its tables for another
one (`RtMode.ModeGroup.TakeRequest` says so, the protocol excludes it).

## Where the code and its purpose part

Each of these is a lemma with a concrete input or an exact condition; the model keeps the code as it
is.

- `RTADeadlineMiss`: `busy_period` divides by the task's own period for every task (`Core.java:149`),
  so too few jobs may be examined and the stored response can be too small (`MissResponseTooSmall`). It
  bounds every job exactly if the load is at most 1 and no job of the first hyperperiod is later than
  those examined (`MissResponseExact`).
- Two-stage and one-stage analysis differ for a runnable of no length exactly if some task above is
  released at the tick the earlier work completes (`ZeroLengthRunnable`, `ZeroLengthDiffers`).
- `mem_initialize` counts only the steps inside pages, so a length of several pages that does not
  fill its last page gets a longer chain than asked for (`RequestedLines`).
- For the same reason it may leave starting points unset that `lib_mem.c:352` dereferences: all of them
  are on the chain exactly if the last one belongs to a pass of the loop (`AllStartsPlaced`). With one
  line per page none is set (`OneLinePages`); with two pages of eight lines and 16 points the last two
  are not (`LastTwoStarts`).
- `cache.c` measures over pages it believes linked in full. They are exactly if the requested lines
  exceed the passes of that loop over all pages (`ChainWithin`), as they do for whole pages
  (`WholePages`); one and a half pages of 64 lines are not (`HalfPageShort`), and then a walk over the
  short page is not the one meant (`ShortPageBreaksWalk`).
- `thrash_initialize` builds its table for other lengths with repeated entries unless their number is
  a power of two; the chain then visits only the first of them (`AllEntriesVisited`).
- `regroup` drops words from the chain exactly if a short last page shares its group (`SameWordsIff`).
- The counting loop of `setup_names` ends exactly for max > 1 or a single file (`CountEndsIff`); with
  `-n 1` and more files the count stays the same for ever (`SameCount`).
- A task inside `rtmode_taskfind` reads `curr_mode` several times without a lock. Safety in every
  interleaving holds exactly for mode tables in which a task has one place (`SafeExactlyIfSound`).
- A request made while the manager is not suspended loses its activation and waits in the queue until
  a later one (`LeftOverRequests`); one made before the manager first waits is such (`RequestLeftOver`).
- The wake-up time of `maxsem_wait` ignores posts made before it started: it covers all posts exactly
  if none of those is later than the rest (`WaitForTasks`, `EarlyCovered`).
- `allocate_tp` reads the list head outside the lock, against its own comment (`ptask.c:62-67`). No
  descriptor is ever held twice, but descriptors can be lost for good (`DescriptorLost`,
  `LostForever`); the list stays exact exactly if the head has not moved (`ExactIffPrompt`).
- `getopt` keeps the place in the word after a missing attached argument, so that a later call can
  fail its assertion or read behind a word (`AssertionFails`). No command line makes it do so exactly
  if the option string does not have both a letter without argument and one with `;`
  (`NeverFaultsIff`).
- `tstat_init` keeps the stored worst time of an earlier task in the same slot (`Measure.GetWcet`).
- `tspec_from_rel` can return nanoseconds outside their range: exactly if a second is carried over from
  the fractions (`FromRelMeans`).
- `merged_results` holds everything in all runs exactly if a repetition is asked for or there are at most
  11 children (`FitsIff`).

## Model

| member | source | states |
|---|---|---|
| FixedPoint.ExitsIffBounded | src/hipert/hg/frontend/amalthea/Core.java:46-52 | a do-while loop over a monotone recurrence stops if and only if some point is not raised by it |
| FixedPoint.ExitIsLeast | src/hipert/hg/frontend/amalthea/Core.java:46-52 | where it stops it has reached the least fixed point at or above its start |
| FixedPoint.IteratesClimb | src/hipert/hg/frontend/amalthea/Core.java:46-52 | the iterates never decrease |
| ResponseTime.ResponseLoopStops | src/hipert/hg/frontend/amalthea/Core.java:45-52 | the response loop stops exactly if there is no own work or the utilisation of the tasks above is below 1 |
| ResponseTime.StartLoopStops | src/hipert/hg/frontend/amalthea/Core.java:188-195 | the start loop stops exactly if that utilisation is below 1 |
| ResponseTime.BusyLoopStops | src/hipert/hg/frontend/amalthea/Core.java:142-151 | the busy-period loop stops exactly if the summed execution times are below the task's period, or equal it with no blocking, or all is zero |
| TwoStage.FinishLoopStops | src/hipert/hg/frontend/amalthea/Core.java:166-175 | the finish loop stops whenever the tasks above leave time free |
| TwoStage.TwoStagesAreOne | src/hipert/hg/frontend/amalthea/Core.java:83-198 | start time then finish time gives the one-stage time when every task above is preemptive, and never more, for any work before |
| TwoStage.FinishIsOthers | src/hipert/hg/frontend/amalthea/Core.java:166-175 | the interference while a runnable runs is what the list releases in which the non-preemptive tasks have no work |
| TwoStage.MixedCompletion | src/hipert/hg/frontend/amalthea/Core.java:161-198 | for every mix of tasks above: a runnable completes when the preemptive ones alone would let it complete behind the earlier work and all that the others release by its start |
| TwoStage.NoPreemption | src/hipert/hg/frontend/amalthea/Core.java:166-175 | with no preemptive task above it runs through |
| TwoStage.NotInterrupted | src/hipert/hg/frontend/amalthea/Core.java:161-198 | under a task of period 10 and cost 4 that does not preempt, 8 ticks of work started at 4 end at 12, not at 16 |
| TwoStage.ZeroLengthRunnable | src/hipert/hg/frontend/amalthea/Core.java:161-198 | for a runnable of no length they agree if and only if no task above with work is released at that very tick |
| TwoStage.ZeroLengthDiffers | src/hipert/hg/frontend/amalthea/Core.java:161-198 | a task of period 2 and cost 1 above one tick of work: 2 by one computation, 3 by the other |
| Analysis.CompletionWithBlocking | src/hipert/hg/frontend/amalthea/Core.java:161-198 | every two-stage completion time is the one-stage time with the blocking added |
| Analysis.LowestPriorityAgreement | src/hipert/hg/frontend/amalthea/Core.java:83-198 | for the task of lowest priority job_finish and job_finishDM agree for every job and runnable |
| Analysis.ReportsAgree | src/hipert/hg/frontend/amalthea/Core.java:64-116 | so the cooperative analysis and the deadline-miss analysis store the same responses for it |
| Analysis.MixedResponse | src/hipert/hg/frontend/amalthea/Core.java:99-116 | the cooperative analysis stores 12 for that task |
| Analysis.MissNeverLowers | src/hipert/hg/frontend/amalthea/Core.java:40-80 | recomputing after a miss never lowers a response |
| ResponseTime.BlockingIs | src/hipert/hg/frontend/amalthea/Core.java:118-137 | the blocking is the length of some runnable below, or 0, and none below is longer |
| Cores.Core.Blocking | src/hipert/hg/frontend/amalthea/Core.java:118-137 | the nested loops find the longest runnable among the tasks below: none is longer, and it is one of them or 0 |
| Cores.Core.BusyPeriod | src/hipert/hg/frontend/amalthea/Core.java:140-153 | the loop returns the least fixed point of its recurrence |
| Cores.Core.JobCount | src/hipert/hg/frontend/amalthea/Core.java:105 | the number of jobs examined is the busy period in periods, rounded up: one period less would not cover it |
| Cores.Core.JobStart | src/hipert/hg/frontend/amalthea/Core.java:184-198 | the loop returns the least fixed point of the start recurrence |
| Cores.Core.JobFinish | src/hipert/hg/frontend/amalthea/Core.java:161-177 | start loop and finish loop return the two-stage completion time |
| Cores.Core.JobFinishDM | src/hipert/hg/frontend/amalthea/Core.java:83-95 | the loop returns the one-stage completion time |
| Cores.Core.WorstJobDM | src/hipert/hg/frontend/amalthea/Core.java:70-75 | the loop over the jobs returns the largest response of the examined jobs |
| Cores.Core.WorstJob | src/hipert/hg/frontend/amalthea/Core.java:105-111 | the same for the cooperative analysis |
| Cores.Core.RTADeadlineMiss | src/hipert/hg/frontend/amalthea/Core.java:64-80 | overwrites every runnable's response with the largest over the jobs, and the task's with the last of them; touches nothing else |
| Cores.Core.ResponseTimeCooperativeTask | src/hipert/hg/frontend/amalthea/Core.java:99-116 | the same with the two-stage analysis |
| Cores.Core.FirstResponses | src/hipert/hg/frontend/amalthea/Core.java:41-55 | stores for every runnable the response of its prefix, for the task that of the last |
| Cores.Core.CheckDeadlines | src/hipert/hg/frontend/amalthea/Core.java:56-60 | if the response of any task exceeds its period, this task is recomputed; if none does, nothing changes |
| Cores.Core.ResponseTimePreemptiveTask | src/hipert/hg/frontend/amalthea/Core.java:40-61 | the prefix responses are stored if they and the other tasks' responses stay within the periods, those after a miss if any does not; the task gets the last of them |
| Scheduler.PrefixInTime | src/hipert/hg/frontend/amalthea/Core.java:42-55 | a job released with its earlier jobs done finishes each prefix within any solution of the recurrence, under every sporadic pattern |
| Scheduler.ResponseIsSound | src/hipert/hg/frontend/amalthea/Core.java:40-55 | if the response of the task fits its period, no prefix of any job finishes later than computed, under every sporadic pattern |
| Exactness.FirstJobExact | src/hipert/hg/frontend/amalthea/Core.java:42-55 | with synchronous periodic release a prefix is complete at a tick if and only if the tick has reached the loop's result |
| Exactness.LaterJobExact | src/hipert/hg/frontend/amalthea/Core.java:83-95 | for later jobs nothing is complete before the result, and it is complete there if and only if the tasks have work at every tick before |
| Exactness.StoredResponseExact | src/hipert/hg/frontend/amalthea/Core.java:40-55 | the stored response of a runnable is the completion tick of that runnable of the first job |
| Exactness.StoredResponseSound | src/hipert/hg/frontend/amalthea/Core.java:40-55 | if the last stored response fits the period, every stored response bounds every job under every sporadic pattern |
| WorstResponse.InTimeIff | src/hipert/hg/frontend/amalthea/Core.java:83-95 | a number bounds the response of a prefix in every job under every sporadic pattern if and only if the load is at most 1 and no job of the first hyperperiod, computed as the code does, exceeds it |
| DeadlineMiss.MissResponseExact | src/hipert/hg/frontend/amalthea/Core.java:64-95 | so a stored response is a bound if and only if that holds of it |
| DeadlineMiss.MissResponseIsSound | src/hipert/hg/frontend/amalthea/Core.java:64-95 | in particular the stored responses bound every job, also beyond the period, when the busy period covers the real demand |
| DeadlineMiss.LongPeriodsCover | src/hipert/hg/frontend/amalthea/Core.java:140-153 | it covers the demand when no task above has a shorter period |
| DeadlineMiss.MissResponseTooSmall | src/hipert/hg/frontend/amalthea/Core.java:140-153 | two tasks for which 114 is stored and is no bound: the third job is still unfinished 114 ticks after its release |
| DeadlineMiss.FiveJobs | src/hipert/hg/frontend/amalthea/Core.java:64-95 | with a blocking third task five jobs are examined; they respond in 114, 102, 116, 104 and 118, and 118 is stored |
| BitReversal.ReverseBits | runtime/lib/lmbench-master/src/lib_mem.c:538-542 | the loop over the bits of an index returns it with its bits reversed |
| BitReversal.WordsInitialize | runtime/lib/lmbench-master/src/lib_mem.c:525-546 | the table holds the bit-reversed indices times the scale |
| BitReversal.RevTwice | runtime/lib/lmbench-master/src/lib_mem.c:536-544 | reversing twice is no change |
| BitReversal.RevPrefix | runtime/lib/lmbench-master/src/lib_mem.c:536-544 | the first 2^m of 2^b entries are the multiples of 2^(b-m), themselves bit-reversed |
| BitReversal.TableIsPermutation | runtime/lib/lmbench-master/src/lib_mem.c:525-546 | the entries differ if and only if the length is a power of two, and then all multiples of the scale occur |
| Chains.FollowCycle | runtime/lib/lmbench-master/src/lib_mem.c:628-630 | dereferencing n times along a cycle leads to its entry n mod its length |
| Layouts.LinkedIsCycle | runtime/lib/lmbench-master/src/lib_mem.c:322-348 | memory linked page by page, line by line, word by word is one cycle in the order of the walk |
| Layouts.OrderVisits | runtime/lib/lmbench-master/src/lib_mem.c:322-348 | the walk visits a word if and only if it is a table word of a linked line |
| Layouts.OrderLength | runtime/lib/lmbench-master/src/lib_mem.c:322-348 | it has one step per word and linked line, so none is visited twice |
| Layouts.OrderAt | runtime/lib/lmbench-master/src/lib_mem.c:322-348 | a word number is reached on any line only after all lines of all pages were visited for the words before |
| LibMem.LinkPage | runtime/lib/lmbench-master/src/lib_mem.c:325-336 | the loop over the lines of a page links them while pointers are left; the starting point s that belongs to one of its passes becomes word s, around the table, of the line that the pass links, all others stay |
| LibMem.MemInitialize | runtime/lib/lmbench-master/src/lib_mem.c:322-348 | links the memory as above, for any page order; starting point s, if its pass s * step comes, is word s of the line that pass links, counted over all pages, and otherwise as it was |
| LibMem.MemChainIsCycle | runtime/lib/lmbench-master/src/lib_mem.c:307-348 | what it builds is one cycle from the first word, whatever the length |
| LibMem.AllStartsPlaced | runtime/lib/lmbench-master/src/lib_mem.c:331-352 | all starting points that are dereferenced lie on the walk if and only if the last one belongs to a pass of the loop |
| LibMem.StartAt | runtime/lib/lmbench-master/src/lib_mem.c:331-336 | where on the cycle a starting point lies: its word in the table counts the rounds, its pass the lines, one more for each page crossed |
| LibMem.StartsDiffer | runtime/lib/lmbench-master/src/lib_mem.c:331-336 | the starting points that are set are all different |
| LibMem.StepIs | runtime/lib/lmbench-master/src/lib_mem.c:331-333 | they are a width-th of the requested lines apart, rounded down |
| LibMem.FourStarts | runtime/lib/lmbench-master/src/lib_mem.c:331-336 | one page of 64 lines of 8 words and four points: lines 0, 16, 32, 48 in visiting order and words 0 to 3 |
| LibMem.OneLinePages | runtime/lib/lmbench-master/src/lib_mem.c:325-336 | with one line per page the loop makes no pass, so none is set |
| LibMem.LastTwoStarts | runtime/lib/lmbench-master/src/lib_mem.c:331-336 | with two pages of eight lines and 16 points the last two are not set |
| LibMem.RequestedLines | runtime/lib/lmbench-master/src/lib_mem.c:307-336 | the chain has the requested number of lines if and only if it fills its pages or stays on one; it never has fewer |
| LibMem.FillsPages | runtime/lib/lmbench-master/src/lib_mem.c:142-146 | page and pointer counts for a length; the pointers fill the pages if and only if the length is a multiple of the page |
| LibMem.Dereference | runtime/lib/lmbench-master/src/lib_mem.c:628-630 | the timed loop ends where n dereferences lead, at entry n mod the length of the cycle |
| Setup.Permutation | runtime/lib/lmbench-master/src/lib_timing.c:1631-1668 | whatever the random numbers, the result is every multiple of the scale once, in the order that trading each entry with the one picked for it leads to |
| Setup.EveryOrder | runtime/lib/lmbench-master/src/lib_timing.c:1631-1653 | every order of them comes out for some random numbers |
| Setup.ShuffledHas | runtime/lib/lmbench-master/src/lib_timing.c:1631-1668 | none of the multiples is missing |
| Setup.TablesAreLayout | runtime/lib/lmbench-master/src/lib_mem.c:142-164 | a permutation of pages and the two tables place every word once and inside the memory |
| Setup.NewTables | runtime/lib/lmbench-master/src/lib_mem.c:129-175 | base_initialize and the tables yield such a layout in fresh memory |
| Setup.NewMemChain | runtime/lib/lmbench-master/src/lib_mem.c:292-348 | from nothing to the linked chain, for all sizes, with the starting points set as above and the others unset |
| Setup.NewMemChainIsCycle | runtime/lib/lmbench-master/src/lib_mem.c:292-348 | one cycle in the allocated memory, with len / line lines if and only if len is a multiple of the page or lies within one |
| Setup.NewStartsPlaced | runtime/lib/lmbench-master/src/lib_mem.c:292-352 | for the machine's sizes: all starting points asked for are on that chain if and only if the last one belongs to a pass of the loop |
| Setup.NewStartsDiffer | runtime/lib/lmbench-master/src/lib_mem.c:292-352 | and no two of them are the same word |
| LineChains.LineInitialize | runtime/lib/lmbench-master/src/lib_mem.c:390-402 | one pointer per line, linked through all lines of all pages |
| LineChains.LineTest | runtime/lib/lmbench-master/src/lib_mem.c:597-663 | while timing the chain is one cycle over the first lines of each page; afterwards memory is as before |
| LineChains.ShortWalkOffsets | runtime/lib/lmbench-master/src/lib_mem.c:610-619 | that cycle touches each page exactly at the multiples of the candidate line |
| LineChains.BackAsBefore | runtime/lib/lmbench-master/src/lib_mem.c:646-663 | cutting the line and putting it back is no change at all |
| Thrash.ThrashPages | runtime/lib/lmbench-master/src/lib_mem.c:247-271 | for whole pages the loops leave one cycle that starts on the first page |
| Thrash.ThrashIsCycle | runtime/lib/lmbench-master/src/lib_mem.c:254-269 | it has one step for every page and table entry |
| Thrash.ThrashAt | runtime/lib/lmbench-master/src/lib_mem.c:254-269 | step j * pages + i is on page i of the list, at entry i + j of the table, around and around |
| Thrash.ThrashVisitsAll | runtime/lib/lmbench-master/src/lib_mem.c:254-269 | no entry on any page is left out |
| Thrash.ThrashTable | runtime/lib/lmbench-master/src/lib_mem.c:235-246 | for other lengths the chain is one cycle through the first different entries of the table |
| Thrash.AllEntriesVisited | runtime/lib/lmbench-master/src/lib_mem.c:235-246 | every entry of the table is on that chain if and only if their number is a power of two; otherwise more than half are not |
| Cache.Measure | runtime/lib/lmbench-master/src/cache.c:411-473 | for any page order the timed walk is one cycle over the measured lines, when the pages before the last are linked in full and the last as far as it is measured; links inside pages stay, only last lines differ |
| Cache.JoinPages | runtime/lib/lmbench-master/src/cache.c:429-435 | the pages lead to each other in their current order and keep their inner links |
| Cache.Reopen | runtime/lib/lmbench-master/src/cache.c:468-473 | the closing of a shortened last page is undone |
| Chunks.SwapChunk | runtime/lib/lmbench-master/src/cache.c:490-494 | the swapping loop yields the traded page list, also where the chunk overlaps the tail |
| Chunks.TradedTwice | runtime/lib/lmbench-master/src/cache.c:489-503 | trading twice is no change |
| Chunks.ChunkIsOut | runtime/lib/lmbench-master/src/cache.c:489-496 | pages of the chunk end up behind the measured prefix, all others in it |
| Chunks.KeptIsOutside | runtime/lib/lmbench-master/src/cache.c:489-496 | the prefix holds only pages outside the chunk |
| Chunks.RemoveChunk | runtime/lib/lmbench-master/src/cache.c:482-506 | measures the walk without the chunk and restores the page list; inner links stay |
| Chunks.ChunkNotWalked | runtime/lib/lmbench-master/src/cache.c:482-506 | no word of a page in the chunk is on that walk |
| Chunks.FindPage | runtime/lib/lmbench-master/src/cache.c:729-742 | the search from the last hit on, then from the start, finds a page if and only if it is listed |
| Chunks.Advance | runtime/lib/lmbench-master/src/cache.c:743-745 | both pointers are where so many dereferences lead, the second at half the pace, and the comparison tells whether the words behind them are the same |
| Chunks.NeverMeet | runtime/lib/lmbench-master/src/cache.c:743-748 | on a chain that comes back the two pointers never see the same word before the end |
| Chunks.MustMeet | runtime/lib/lmbench-master/src/cache.c:743-748 | on one that does not they do at some step |
| Chunks.CheckMemory | runtime/lib/lmbench-master/src/cache.c:707-756 | on every chain that stays in memory the check ends; it complains of an unwanted cycle if and only if the chain does not come back to its start, and otherwise exactly of words off the listed pages and of a wrong length |
| Chunks.MeasuredWords | runtime/lib/lmbench-master/src/cache.c:411-439 | for whole lines the measured walk has size / word steps |
| Chunks.NoComplaint | runtime/lib/lmbench-master/src/cache.c:707-756 | so the check has nothing to complain about after measure's rewiring |
| Measurements.ChainWithin | runtime/lib/lmbench-master/src/lib_mem.c:322-348 | mem_initialize links all its pages in full if and only if the requested lines exceed the passes of its loop over all pages, or a page is one line |
| Measurements.WholePages | runtime/lib/lmbench-master/src/lib_mem.c:142-146 | they do whenever the length is a multiple of the page |
| Measurements.CollectSetup | runtime/lib/lmbench-master/src/cache.c:263-302 | from nothing to memory in which every page is linked in full, in ascending page order, for any random order before |
| Measurements.WholeLinesOk | runtime/lib/lmbench-master/src/cache.c:402-416 | every size of whole lines within the pages can be measured |
| Measurements.MeasureSize | runtime/lib/lmbench-master/src/cache.c:402-480 | on that memory every size can be measured, again and again: the timed walk is the cycle over its lines, and all pages stay linked in full |
| Measurements.WalkIsRight | runtime/lib/lmbench-master/src/cache.c:402-439 | for whole lines that walk has size / word steps and stays on listed pages |
| Measurements.CheckMeasured | runtime/lib/lmbench-master/src/cache.c:707-756 | so check_memory complains of nothing on it |
| Measurements.MeasureWithout | runtime/lib/lmbench-master/src/cache.c:482-506 | and the same memory is measured without a chunk of pages, everything restored |
| Measurements.WithoutPages | runtime/lib/lmbench-master/src/cache.c:402-411 | the smaller size remove_chunk passes on has exactly so many pages less and the same last lines |
| Measurements.ChunkWalkIsRight | runtime/lib/lmbench-master/src/cache.c:482-506 | that walk has as many steps as the smaller size has words |
| Measurements.CycleNeedsLinks | runtime/lib/lmbench-master/src/cache.c:425-439 | the measured walk is a cycle only in memory that is linked as far as it is measured |
| Measurements.ShortPageBreaksWalk | runtime/lib/lmbench-master/src/cache.c:425-439 | so with a page not linked in full no rewriting of last lines makes the walk over all lines right |
| Measurements.HalfPageShort | runtime/lib/lmbench-master/src/lib_mem.c:322-336 | for one and a half pages of 64 lines there is such a page |
| Measurements.NewLineChain | runtime/lib/lmbench-master/src/lib_mem.c:364-402 | line_initialize from nothing, for all sizes |
| Measurements.TestLine | runtime/lib/lmbench-master/src/lib_mem.c:550-663 | on it line_test times, for a line 2^d times as long, a walk that touches the pages exactly at the multiples of that length, and leaves memory as it was |
| Measurements.ThrashInitialize | runtime/lib/lmbench-master/src/lib_mem.c:207-273 | thrash_initialize from nothing leaves one cycle, in both branches |
| Measurements.ThrashLength | runtime/lib/lmbench-master/src/lib_mem.c:247-271 | for whole pages with one step per line of the length |
| DramPage.ShiftPages | runtime/lib/lmbench-master/src/lat_dram_page.c:115-123 | every word of all pages but the last of a group leads to the same offset of the next page |
| DramPage.RedirectPage | runtime/lib/lmbench-master/src/lat_dram_page.c:135-143 | pointers inside the last page move to the first page of the group, others stay |
| DramPage.Regroup | runtime/lib/lmbench-master/src/lat_dram_page.c:102-144 | one group is linked line by line across its pages and still leads to what follows; nothing outside changes |
| DramPage.DramPageInitialize | runtime/lib/lmbench-master/src/lat_dram_page.c:158-166 | for any group size and length the chain is one cycle again, group by group |
| DramPage.LeadsTo | runtime/lib/lmbench-master/src/lat_dram_page.c:115-143 | where every word of the regrouped chain leads, by page, line and word: the same line of the next page of its group, the next line of the first page of the group, the page behind the group, or the next word of the first line; groups start at the multiples of the group size |
| DramPage.RegroupedIsCycle | runtime/lib/lmbench-master/src/lat_dram_page.c:113-143 | regrouped links form one cycle from the first word |
| DramPage.SameWordsIff | runtime/lib/lmbench-master/src/lat_dram_page.c:158-166 | it keeps all words of the chain before if and only if the last page is full or a group of its own |
| RtMode.TlistSub | runtime/lib/ptask/rtmode.c:7-23 | the loops return the list difference used by the protocol |
| ModeSafety.MinusMembers | runtime/lib/ptask/rtmode.c:7-23 | which holds exactly the members of the first list that are not in the second |
| RtMode.MaxSem.Post | runtime/lib/ptask/rtmode.c:136-145 | counts the post, keeps the latest time, signals exactly when the count is the awaited one |
| RtMode.MaxSem.Enter | runtime/lib/ptask/rtmode.c:149-153 | overwrites the latest time and blocks exactly while too few have posted |
| RtMode.MaxSem.Leave | runtime/lib/ptask/rtmode.c:154-158 | returns the latest time and clears both counters |
| RtMode.WaitForTasks | runtime/lib/ptask/rtmode.c:136-159 | a whole wait ends after the last post and returns the latest of its start and the posts made since; that is the latest of all posts if and only if none made before is later |
| RtMode.EarlyCovered | runtime/lib/ptask/rtmode.c:149-158 | leaving out earlier posts makes no difference if and only if none of them is later |
| RtMode.ModeGroup.Enqueue | runtime/lib/ptask/rtmode.c:106-110 | appends the request |
| RtMode.ModeGroup.TakeRequest | runtime/lib/ptask/rtmode.c:48-66 | takes the oldest request and computes what leaves and what enters, mode -1 included; tells when the request is outside the tables, which the code does not check |
| RtMode.ModeGroup.TaskFind | runtime/lib/ptask/rtmode.c:113-125 | finds a task if and only if it belongs to the current mode |
| ModeSafety.ListsFit | runtime/lib/ptask/rtmode.c:56-64 | leaving tasks are exactly those of the old mode only, entering ones those of the new mode only |
| ModeSafety.PosterLeaves | runtime/lib/ptask/ptask.c:290-295 | only a task of the leaving list is ever about to post, and only while the manager waits for that list |
| ModeSafety.TaskPostKeeps | runtime/lib/ptask/rtmode.c:136-145 | a post keeps the invariant, in which the count is the number of leaving tasks that have posted |
| ModeSafety.SetModeKeeps | runtime/lib/ptask/rtmode.c:65-67 | changing the mode keeps it, with look-ups under way, for sound tables |
| ModeSafety.ActivateKeeps | runtime/lib/ptask/rtmode.c:71-73 | an activation, or the end of the list, keeps it: of the mode's tasks exactly those still listed are not released |
| ModeSafety.StepKeeps | runtime/lib/ptask/rtmode.c:40-159 | every step of manager, task or requester keeps the invariant |
| ModeSafety.SoundIsSafe | runtime/lib/ptask/rtmode.c:40-159 | in every reachable state: nothing of the new mode starts before everything that leaves has posted, counters are right, requests are handled in order, and a waiting manager has exactly the mode's tasks released |
| ModeSafety.LeftOverRequests | runtime/lib/ptask/ptask.c:472-495 | whatever the tables, requests are left over at rest exactly if an activation was refused because the manager was busy, one for each |
| ModeSafety.RequestLeftOver | runtime/lib/ptask/ptask.c:472-495 | a request made before the manager first waits is left over at rest |
| ModeUnsafe.MissedEntry | runtime/lib/ptask/rtmode.c:113-125 | a task listed at different places can miss its entry during a change and leave its own mode |
| ModeUnsafe.ReadOutside | runtime/lib/ptask/rtmode.c:113-125 | with mode -1 a task can index the mode table outside its bounds |
| ModeUnsafe.SafeExactlyIfSound | runtime/lib/ptask/rtmode.c:40-159 | all reachable states are safe if and only if the look-up is one step, or tasks have one place in all modes and mode -1 is not used with them |
| ModeProgress.NeverStuck | runtime/lib/ptask/rtmode.c:40-159 | with sound tables, in every reachable state: unless the manager waits with nothing on its way, it, a task that it waits for or a requester has a possible step |
| ModeProgress.AlwaysSettles | runtime/lib/ptask/rtmode.c:40-159 | from every reachable state the manager can come back to its waiting, a change under way completed, with exactly the tasks of its mode released |
| ModeProgress.RequestCompletes | runtime/lib/ptask/rtmode.c:40-159 | a request made at rest can be carried through: all that leave post, the manager resumes, the oldest request comes into force and is the only one handled, exactly its tasks are released, and the manager is at rest again |
| Samples.SlowerIs | runtime/lib/lmbench-master/src/lib_timing.c:1219-1230 | comparing the products is comparing the times per iteration |
| Samples.Result.InsertSort | runtime/lib/lmbench-master/src/lib_timing.c:1220-1244 | the shifting loop puts a measurement in front of the first smaller one; a zero time is ignored |
| Samples.InsertedIs | runtime/lib/lmbench-master/src/lib_timing.c:1220-1244 | which keeps the results sorted by time per iteration and adds exactly that measurement |
| Samples.SlowestFirst | runtime/lib/lmbench-master/src/lib_timing.c:1219-1244 | in sorted results the time per iteration never rises |
| Samples.Result.constructor | runtime/lib/lmbench-master/src/lib_timing.c:1205-1217 | an empty buffer with room for the repetitions, at least 11 |
| Samples.Result.Merge | runtime/lib/lmbench-master/src/lib_timing.c:473-476 | inserts a child's results one by one and grows by no more than their number |
| Samples.InsertedAllIs | runtime/lib/lmbench-master/src/lib_timing.c:473-476 | the merged results are sorted and the multiset union |
| HarnessSafety.StepKeeps | runtime/lib/lmbench-master/src/lib_timing.c:358-756 | every step of the parent and of a child keeps the invariant |
| HarnessSafety.AlwaysSafe | runtime/lib/lmbench-master/src/lib_timing.c:358-756 | in every run with any number of children: one ready and one done each, nobody measures before all are ready, result signals are taken only when all are in cooldown, blocks never interleave, and the end result is sorted and is the union of the children's |
| HarnessSafety.NeverStuck | runtime/lib/lmbench-master/src/lib_timing.c:358-756 | until all children are gone somebody can always move |
| HarnessSafety.WholeBlock | runtime/lib/lmbench-master/src/lib_timing.c:438-472 | a full buffer is the whole block of the one child that took the signal |
| HarnessSafety.EveryOrder | runtime/lib/lmbench-master/src/lib_timing.c:436-477 | whatever the order in which children take the signal, all measurements are collected |
| HarnessResults.MakesItsRepetitions | runtime/lib/lmbench-master/src/lib_timing.c:560-756 | in every run a child that has said it is done has kept exactly its repetitions, at least one, unless it gave up, which it cannot with other children; its list is those measurements, inserted one by one |
| HarnessResults.SingleMayGiveUp | runtime/lib/lmbench-master/src/lib_timing.c:702-733 | a single child may stop without a single measurement, whatever it is asked for |
| HarnessResults.ParentHasAll | runtime/lib/lmbench-master/src/lib_timing.c:436-490 | at the end, with all times positive, the parent has every measurement any child kept: children times repetitions, sorted |
| HarnessSafety.MergeFits | runtime/lib/lmbench-master/src/lib_timing.c:436-477 | the merged results never exceed children times max(1, repetitions) |
| HarnessRoom.AlwaysAtMost | runtime/lib/lmbench-master/src/lib_timing.c:436-482 | nor do they at any time of any run |
| HarnessRoom.FitsIff | runtime/lib/lmbench-master/src/lib_timing.c:354-482 | in every reachable state they fit their buffer if and only if a repetition is asked for or there are at most 11 children |
| DirectoryTree.BlockSize | runtime/lib/lmbench-master/src/lat_fs.c:134-136 | the product loop yields max to the power of the depth |
| DirectoryTree.Leaves | runtime/lib/lmbench-master/src/lat_fs.c:144-149 | a lowest directory gets as many different names as fit and are left, numbered from 0 |
| DirectoryTree.Children | runtime/lib/lmbench-master/src/lat_fs.c:133-143 | a higher one makes exactly the directories its files need on every level below |
| DirectoryTree.Recurse | runtime/lib/lmbench-master/src/lat_fs.c:126-151 | the recursion stays inside both lists and writes only its own stretch; all paths differ and lie below, every directory stands after its parent, all files are on one level in directories that were made, no directory gets more than max entries, and the files are numbered in the order in which they are made |
| DirectoryTree.CeilTwice | runtime/lib/lmbench-master/src/lat_fs.c:164-172 | counting level by level is rounding up once for each level |
| DirectoryTree.CountEndsIff | runtime/lib/lmbench-master/src/lat_fs.c:166-172 | the loop that counts level by level ends if and only if max is above 1 or there is one file |
| DirectoryTree.CountLevels | runtime/lib/lmbench-master/src/lat_fs.c:164-172 | where it ends it has the number of levels and of directories on all of them |
| DirectoryTree.DirsStep | runtime/lib/lmbench-master/src/lat_fs.c:138-142 | one more child adds itself and what its files need below |
| DirectoryTree.SetupNames | runtime/lib/lmbench-master/src/lat_fs.c:153-205 | whenever that loop ends, recursion and level-by-level count agree for every number of files: both lists are filled exactly, as above, and the error test never fires; there are as few levels as will do, and file x is the one whose path spells x in base max |
| DirectoryTree.FilesAreNumbers | runtime/lib/lmbench-master/src/lat_fs.c:126-151 | any path of that length with entries below max that spells a number below the number of files is the one listed under it |
| DirectoryTree.OutcomeOrder | runtime/lib/lmbench-master/src/lat_fs.c:126-151 | no directory is listed twice or before its parent |
| DirectoryTree.CleanupNames | runtime/lib/lmbench-master/src/lat_fs.c:221-226 | the reverse loop finds every directory empty and removes exactly those listed |
| FreeList.TaskTable.constructor | runtime/lib/ptask/ptask.c:168-175 | the list holds all descriptors in order |
| FreeList.TaskTable.AllocateTp | runtime/lib/ptask/ptask.c:65-87 | as one step: takes the first free descriptor, or none if the list is empty |
| FreeList.TaskTable.ReleaseTp | runtime/lib/ptask/ptask.c:93-102 | as one step: puts the descriptor in front |
| FreeList.AllocateTakesFirst | runtime/lib/ptask/ptask.c:65-87 | the list stays acyclic and holds exactly what is not busy |
| FreeList.ReleasePutsFirst | runtime/lib/ptask/ptask.c:93-102 | the same for a release |
| FreeList.StepKeeps | runtime/lib/ptask/ptask.c:65-102 | with the head read outside the lock: a descriptor is busy if and only if exactly one task holds it |
| FreeList.NeverHeldTwice | runtime/lib/ptask/ptask.c:65-102 | in every interleaving two tasks hold different descriptors |
| FreeList.ExactIffPrompt | runtime/lib/ptask/ptask.c:65-87 | a step keeps the list exact if and only if the descriptor read is still the head, or busy, under the lock |
| FreeList.PromptRunsExact | runtime/lib/ptask/ptask.c:65-102 | as long as that holds at every lock the list is exact at all times |
| FreeList.UndividedRunsExact | runtime/lib/ptask/ptask.c:65-102 | so with each allocation as one operation, its read directly before its lock, the list is exact at all times |
| FreeList.LostForever | runtime/lib/ptask/ptask.c:65-102 | a lost descriptor is never held again in any continuation |
| FreeList.DescriptorLost | runtime/lib/ptask/ptask.c:65-102 | a run of nine steps after which nobody holds or allocates anything and a descriptor is lost |
| Getopt.Parser.Next | runtime/lib/lmbench-master/src/getopt.c:32-74 | a call updates place, argument and error letter as specified |
| Getopt.Parser.Take | runtime/lib/lmbench-master/src/getopt.c:60-116 | the same for a letter that was found, in each of its forms |
| Getopt.RoundTrip | runtime/lib/lmbench-master/src/getopt.c:32-116 | every list of options written in any permitted form is delivered in order, then the end with `optind` at the first operand, for good |
| Getopt.CleanIffWritten | runtime/lib/lmbench-master/src/getopt.c:32-116 | a command line is parsed without a complaint if and only if it can be written that way |
| Getopt.WrittenOut | runtime/lib/lmbench-master/src/getopt.c:32-116 | with "aP:b|d;" the words -aP 2 -b -b3 -d4 and an operand give a without argument, P with 2, b without, b with 3, d with 4, and the end |
| Getopt.LetterAtPlace | runtime/lib/lmbench-master/src/getopt.c:48-116 | a letter delivered, or complained of in `optopt`, is the one at the place |
| Getopt.NeverFaultsIff | runtime/lib/lmbench-master/src/getopt.c:48-103 | no command line and no number of calls makes the assertion fail or a word be read behind its end if and only if the option string does not have both a letter without argument and one whose argument must be attached |
| Getopt.FaultsIff | runtime/lib/lmbench-master/src/getopt.c:48-103 | over any number of calls the assertion fails, or a word is read behind its end, if and only if an earlier call left the place too far |
| Getopt.FaultIff | runtime/lib/lmbench-master/src/getopt.c:48-103 | a call leaves a place at which the next one fails if and only if an attached argument is missing and the next word is an option word too short for the place |
| Getopt.AssertionFails | runtime/lib/lmbench-master/src/getopt.c:96-103 | with "ad;" the words -ad -a make the third call fail |
| Getopt.Progress | runtime/lib/lmbench-master/src/getopt.c:60-116 | a letter always moves the place on; the end and most errors leave it |
| ExecTime.UnitsAre | runtime/lib/ptask/ptime.c:8-55 | 1500 milliseconds, 1500000 microseconds and 1500000000 nanoseconds are one and a half seconds, and what each unit cuts off |
| ExecTime.ConversionRoundTrip | runtime/lib/ptask/ptime.c:32-84 | converting a number of units to a time and back loses nothing, negative numbers and the relative versions included |
| ExecTime.ConversionCutsDown | runtime/lib/ptask/ptime.c:32-55 | a time to units and back is cut down to the unit |
| ExecTime.FromRelMeans | runtime/lib/ptask/ptime.c:73-84 | the relative version denotes the right moment, in normal form if and only if the whole seconds of that moment are those of the reference and of the time added |
| ExecTime.TspecAdd | runtime/lib/ptask/ptime.c:112-122 | the loop returns the sum, normalised if and only if its nanoseconds were not negative |
| ExecTime.TspecAddDelta | runtime/lib/ptask/ptime.c:99-110 | adding a number of units |
| ExecTime.CmpOrders | runtime/lib/ptask/ptime.c:127-137 | for normal times the comparison is that of the moments |
| ExecTime.TspecSub | runtime/lib/ptask/ptime.c:139-150 | the difference of two normal times is exact and normal |
| ExecTime.Measure.Init | runtime/lib/ptask/tstat.c:14-19 | starts a new count and keeps the stored worst time |
| ExecTime.Measure.Record | runtime/lib/ptask/tstat.c:21-30 | appends the time since the last record |
| ExecTime.Measure.GetTotal | runtime/lib/ptask/tstat.c:52-55 | the total is the sum of the recorded times |
| ExecTime.Measure.GetAvg | runtime/lib/ptask/tstat.c:37-45 | the average is normal, cut to nanoseconds, and not above the stored worst time |
| ExecTime.Measure.GetWcet | runtime/lib/ptask/tstat.c:32-35 | the stored worst time is one of this task's if and only if none before was larger |
| ExecTime.Measured | runtime/lib/ptask/tstat.c:14-55 | all of this for any run of a clock that does not go back |

## Left out

- LaterJobExact: counts the own work of the earlier jobs as available from tick 0, as the recurrence
  does; the condition on busy ticks says when that is harmless.
- A scheduler for cooperative tasks: their response times are tied to the recurrences of the code and
  to the preemptive analysis only.
- Finer steps of the mode change than listed above: storing a request and advancing `head`, posting
  and suspending.
- NeverStuck: in both protocols it says that a step is always possible, not that every scheduler takes it;
  `RequestCompletes` shows one that does.
- RTAcore's choice between the analyses, RTAcore_per_task, addTask (the execution time is the sum of
  the runnables from the start), sorting by priority, and printing.
- Overflow of machine integers and rounding of doubles; a NUL inside a word of a command line.
- fixup_chunk of cache.c: its save and restore copy `sizeof(int)` per `size_t` entry, so no
  permutation follows from the code where the two differ.
- Trying again with less memory when an allocation fails; what a measured time decides (search,
  test_chunk, the choice of the line size).
- stride_initialize, tlb_initialize, mem_benchmark's unrolled loops, and the other lmbench programs.
- Signals, timeouts, dying parents and errors of system calls in the harness; the choice of iteration
  counts (a measurement is any time, kept or not as the code may decide for one child).
- The offset and deadline fields of a task, its mutexes and semaphore protocol, thread creation.
- Creating and removing the benchmark's files between setup_names and cleanup_names.
- User interface, DOT and XML output, file reading, and the native mapper.
