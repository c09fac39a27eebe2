# lmbench 3, modelled and proved in Dafny

lmbench measures operating-system and memory-hierarchy performance. This project models the parts
of it whose correctness is not visible from any single function, and proves what they are for:

* **the measuring harness** (`lib_timing.c`): a parent and any number of children that talk over
  four shared pipes, sample, and have their results merged into one published median;
* **the pointer chains** (`lib_mem.c`, `lat_dram_page.c`, `cache.c`): loops that thread one circular
  list through memory, rewire it, repair it or rewrite it, and must always leave a single cycle over
  a known set of words;
* **the cache search** (`cache.c`): recursive refinement of a latency curve, and the surgery on the
  page list that looks for colliding pages;
* **the name tree** of the file-creation benchmark (`lat_fs.c`);
* **weighted least squares** (`lib_stats.c`), **option parsing** (`getopt.c`) and **processor
  placement** (`lib_sched.c`).

## How the model is laid out

| module | models |
|---|---|
| Harness, HarnessTheorems | the handshake as a state machine with partial reads and writes, its invariant, and what holds on every run |
| BenchmpChild, HarnessChild | `benchmp_interval` as a class, and each of its calls as steps of the handshake |
| BenchmpRuns | whole runs: the handshake together with what every child has measured and the parent has merged |
| Results, Medians | `insertsort` and the merge; `save_median` and when it is a median |
| PointerChain, Lanes | circular lists in memory, and the lane-by-lane order all builders share |
| BitReversal, Tables | bit-reversed offset tables and lists of pages |
| Shuffles | the two random page orders and which orders they reach |
| LibMem, LineChains, Thrash, TlbChain, ParMem | the chain builders of `lib_mem.c` |
| DramPage | `lat_dram_page.c` |
| CacheMeasure, PageLists, CacheChunks, CacheSearch, CacheData | `cache.c`: wiring, page lists, the surgery on the list, the search, and `collect_data` |
| CacheFixup, CacheTest | `fixup_chunk`, and `test_chunk` and `collect_sample` above it, as functions of their measurements, and when they lose a page or take a remainder by zero |
| CacheRuns, CacheVisits | what the measurements were of: pages and the latencies recorded for them, sizes and where the latencies left by `search` come from |
| LatFs, LibStats, GetOpt, LibSched | the source files of those names |
| Counting, Arith, Options | counting in sequences, products and remainders under a name, an optional value |

Memory is an array indexed by byte address relative to the buffer; only aligned cells are used as
pointers, and a cell holds the address it points to. Doubles are exact reals and integers are
unbounded. Random numbers and measured times are arbitrary. A loop that the source writes inside a
longer function is sometimes a method of its own here, so that its contract can be read alone.

## What the proofs found

* `mem_initialize` counts only links inside pages, so a partial last page gets too many lines:
  the chain has `len/line` lines exactly when `len` is a whole number of pages, or lies in one page
  and holds at least a line (`LibMem.ChainLengthExact`). A start point is set only if enough in-page
  links come before it, so not all `width` of them need be (`LibMem.AllStartsExactly`): over whole pages,
  with a width that divides the lines, exactly when the width is less than the lines of a page
  (`LibMem.WholePagesStartAll`).
* `regroup` of `lat_dram_page.c` drops the lines that the last page does not have from every page of its
  group, so the chain keeps all its words exactly when the last page is fully linked or alone in its group
  (`DramPage.GroupCellsExactly`).
* `words_initialize` yields distinct offsets exactly for powers of two, and therefore
  `thrash_initialize` on a partial page builds a full cycle exactly then.
* `tlb_initialize` means to randomise the pages after the first, but always exchanges with an earlier entry:
  it reaches exactly the orders of a single cycle (`Shuffles.EarlierExactly`), so of several pages none
  keeps its place (`TlbChain.EveryPageMoves`). `permutation` reaches every order, each by one choice of
  random numbers (`Shuffles.AnyOrder`, `Shuffles.OneChoiceOnly`).
* The comment on `reverse_bits` doubts processor counts that are not powers of two. The reversal
  spreads processes apart exactly for 2^k and 2^k - 1 processors (`LibSched.BalancedSpreadPins`,
  `LibSched.UniqueSpreadExactly`).
* `check_memory` expects `size/sizeof(char*)` words; the chain `measure` wires has that many exactly
  when the size ends less than a word after a line (`CacheMeasure.CheckMemory`).
* The comment on `;` options in `getopt.c` does not say that the position in the word is kept
  after the error; the assertion of the next call then fails exactly when the next option word is too
  short (`GetOpt.AssertionKept`, `GetOpt.AssertionFails`). After any other error the next call stops at the
  same letter again, so a program that ignores '?' never gets past it (`GetOpt.ErrorNamesLetter`).
* `fixup_chunk` saves the page list by copying `sizeof(int)` bytes per page. When it backs out, no page
  is ever lost exactly if that restores the whole list or nothing behind the start of the chunk; for every
  other chunk there are measurements, with baselines as `test_chunk` passes them, that lose one
  (`CacheFixup.NeverLosesExactly`). With 8-byte pointers and an odd number of pages one entry is copied by
  half; that restores it on a little-endian machine and not on others (`CacheChunks.EntriesRestored`).
* So does a whole sample: `collect_sample` with more than one page keeps all pages for all measurements
  exactly when the whole list is restored, or nothing is (`CacheTest.SampleNeverLosesExactly`).
* With exactly one spare page `fixup_chunk` takes a remainder by zero. Some measurements bring a sample
  there exactly when it has more than one page and leaves one spare (`CacheTest.SampleNeverFaultsExactly`).
  Only sizes strictly between the smallest and the largest are sampled in this way
  (`CacheData.CollectData`).
* After a successful fix-up `fixup_chunk` moves the chunk back by running the same exchange loop. That
  restores the positions exactly when chunk and tail do not overlap (`PageLists.MoveBackExactly`).
* With `repetitions <= 0` every child still takes a sample; with more than `TRIES` children whose
  batches took time the merge then does not fit its array (`BenchmpRuns.MergeFitsExactly`), and there is
  such a run for every number of children above `TRIES` (`BenchmpRuns.SomeRunOverflows`).
* `save_median` averages counts as well as times. What it publishes is a median exactly when it lies
  between the two middle samples (`Medians.MedianMeansBetween`), and it does so for all their times
  exactly when the count of the larger ratio is an odd multiple of the other
  (`Medians.AverageBetweenExactly`). With several children all counts are equal; a single child can
  record unequal ones (`BenchmpChild.RunWithUnequalCounts`).

## Model

| member | source | states |
|---|---|---|
| Harness.InitInv | lmbench3/src/lib_timing.c:606-628 | the protocol invariant holds before the first step |
| Harness.StepInv | lmbench3/src/lib_timing.c:361-490 | every step keeps the protocol invariant, for any number of children |
| Harness.AllDone | lmbench3/src/lib_timing.c:406-437 | when the last done byte is read, every child is in cooldown and no start byte is left over |
| Harness.OwnerWrites | lmbench3/src/lib_timing.c:749-755 | a partial write of a result block keeps buffer and pipe together a prefix of that one child's block |
| Harness.StepReadLast | lmbench3/src/lib_timing.c:451-484 | the read that completes a block merges it and frees the response pipe |
| HarnessTheorems.ReachableInv | lmbench3/src/lib_timing.c:361-490 | the invariant holds in every reachable state |
| HarnessTheorems.TimingMeansAllEngaged | lmbench3/doc/lmbench3.ms:577-580 | while any child is in timing_interval, every child has sent ready and none has consumed a result byte |
| HarnessTheorems.ReadsOnlyWhatItWaitsFor | lmbench3/src/lib_timing.c:361-437 | ready, done and result bytes share one pipe, yet the parent only ever finds the kind it is waiting for |
| HarnessTheorems.GathersOneBlock | lmbench3/doc/lmbench3.ms:816-866 | while results are gathered the pipe holds the next bytes of one child's block and nothing else |
| HarnessTheorems.ReporterOwnsPipe | lmbench3/src/lib_timing.c:749-755 | at most one child is writing results, the parent is gathering, and no other result byte is out |
| HarnessTheorems.BlocksAreWhole | lmbench3/src/lib_timing.c:439-484 | every block handed to the merge is exactly one child's block, and no child comes twice |
| HarnessTheorems.MergedIsEveryChildOnce | lmbench3/src/lib_timing.c:439-490 | after the results phase every child has been merged exactly once |
| HarnessTheorems.NobodyExitsEarly | lmbench3/src/lib_timing.c:486-490 | a child exits only after SIGCHLD was disarmed and exit bytes were sent |
| HarnessTheorems.LosersGetAnotherByte | lmbench3/src/lib_timing.c:698-705 | children that saw a start or result byte and lost the race are no more than the bytes still to come |
| HarnessTheorems.OneReadyThenOneDone | lmbench3/src/lib_timing.c:706-741 | on every run a child writes at most one ready and at most one done, the done only after the ready |
| HarnessTheorems.WritesReadyOnce | lmbench3/src/lib_timing.c:706-710 | a ready byte is only written by a child that has not written one |
| HarnessTheorems.StepsUseMeasure | lmbench3/src/lib_timing.c:361-490 | every step but polling decreases the protocol measure |
| HarnessTheorems.Progress | lmbench3/src/lib_timing.c:361-490 | no reachable state is stuck: until all children have exited some step decreases the measure |
| HarnessTheorems.RunsAreBounded | lmbench3/src/lib_timing.c:361-490 | a run takes at most as many steps besides polling as the initial measure |
| HarnessTheorems.RunsComplete | lmbench3/src/lib_timing.c:361-490 | every run can be continued until all children are merged and have exited |
| BenchmpChild.StepKeepsValid | lmbench3/src/lib_timing.c:660-772 | every call keeps the samples sorted, nonzero and within their array |
| BenchmpChild.ChildState.constructor | lmbench3/src/lib_timing.c:606-628 | the state benchmp_child starts from |
| BenchmpChild.ChildState.TimeInterval | lmbench3/src/lib_timing.c:712-742 | the timing_interval case: when a batch is recorded, when and how the count is resized, when the child is finished |
| BenchmpChild.ChildState.Interval | lmbench3/src/lib_timing.c:660-772 | one call of benchmp_interval: the new state, the byte sent, and the count returned, which is the batch outside timing_interval |
| BenchmpChild.CallsValid | lmbench3/src/lib_timing.c:651-656 | the child's state stays valid over any sequence of calls |
| BenchmpChild.RecordedCountRan | lmbench3/src/lib_timing.c:669-681 | a recorded sample carries the iteration count that the preceding call returned |
| BenchmpChild.CountToRun | lmbench3/src/lib_timing.c:697-744 | over any sequence of calls: the count returned is the initial batch in warmup and cooldown, the initial count when timing starts, and the last one returned, resized or not, while timing |
| BenchmpChild.SignalsFollowPhases | lmbench3/src/lib_timing.c:684-765 | over any sequence of calls: ready is sent by the first call and no other, the start byte read on the way into timing, done sent on the way out of it, the result byte read in cooldown |
| BenchmpChild.SamplesFit | lmbench3/src/lib_timing.c:714-720 | a child never records more samples than it is to take, one when it is asked for none, and they fit its array |
| BenchmpChild.AllSamplesTaken | lmbench3/src/lib_timing.c:714-720 | one of several children whose batches all took time has in cooldown exactly the samples it was to take |
| BenchmpChild.ParallelSameCount | lmbench3/src/lib_timing.c:722-736 | with several children every sample carries the initial iteration count |
| BenchmpChild.ResizeReachesFixedPoint | lmbench3/src/lib_timing.c:725-727 | with cost linear in iterations one resize gives floor(1.1*enough/cost)+1 whatever the count was |
| BenchmpChild.FixedPointTime | lmbench3/src/lib_timing.c:722-727 | at the fixed point a batch takes more than 1.1 times enough, so it is long enough to be recorded |
| BenchmpChild.SettledRecords | lmbench3/src/lib_timing.c:714-727 | once settled, every interval is recorded and the count stays |
| BenchmpChild.SettledFinishes | lmbench3/src/lib_timing.c:714-720 | a settled child reaches cooldown after the repetitions it still needs |
| BenchmpChild.LongBatchFinishes | lmbench3/src/lib_timing.c:724-727 | from the first batch of more than 150 microseconds outside the band the child finishes with the count at the fixed point |
| BenchmpChild.GrowingFinishes | lmbench3/src/lib_timing.c:722-734 | from 8^j iterations the child finishes after at most ten minus j steps of times eight, one resize and its samples, with the count at the fixed point, in the band or beyond the cap; or, when one sample was left, one step of times eight beyond a batch just below the band |
| BenchmpChild.SingleChildFinishes | lmbench3/src/lib_timing.c:712-741 | a single child with steady cost reaches cooldown within repetitions plus ten intervals; its count ends at the fixed point, at a power of 8 in the band, or beyond the cap, unless a single sample is wanted and enough is below 158 |
| BenchmpChild.RunWithUnequalCounts | lmbench3/src/lib_timing.c:712-736 | calls that leave a single child with samples of counts 1 and 8, whose published average is above both |
| HarnessChild.WarmupCallRefines | lmbench3/src/lib_timing.c:696-711 | a call in warmup that nobody interrupts is a sequence of handshake steps; interrupted calls are in BenchmpRuns |
| HarnessChild.TimingCallRefines | lmbench3/src/lib_timing.c:712-742 | a call in timing_interval that nobody interrupts is a sequence of handshake steps |
| HarnessChild.CooldownCallRefines | lmbench3/src/lib_timing.c:743-765 | a call in cooldown that nobody interrupts is a sequence of handshake steps, ending in the wait for exit |
| BenchmpRuns.CallKeepsLink | lmbench3/src/lib_timing.c:660-772 | the step that completes a call leaves the child where benchmp_interval leaves it, however the call was interrupted |
| BenchmpRuns.OtherKeepsLink | lmbench3/src/lib_timing.c:660-772 | every other step leaves the child between the same two calls |
| BenchmpRuns.ReportersAreFrozen | lmbench3/src/lib_timing.c:754-764 | a child that has consumed its result byte completes no more calls, so what it reports is final |
| BenchmpRuns.AfterInv | lmbench3/src/lib_timing.c:361-490 | every step of a whole run keeps the handshake, the children's states and the merged samples consistent |
| BenchmpRuns.RunProjects | lmbench3/src/lib_timing.c:361-490 | every whole run is a run of the handshake, so all that holds there holds here |
| BenchmpRuns.TimingChildMeansAllEngaged | lmbench3/doc/lmbench3.ms:577-580 | while the state of any child is timing_interval, every child runs the benchmark |
| BenchmpRuns.OverMeansAll | lmbench3/src/lib_timing.c:439-490 | after the results phase every child is in cooldown and merged_results is the merge of all their samples in the order of reporting |
| BenchmpRuns.PublishedIsMedianOfAll | lmbench3/src/lib_timing.c:439-493 | on every run the merged array is the sorted union of what the children recorded; with several children its published value is a median of that: the common count with the middle time or the mean of the two middle ones |
| BenchmpRuns.MergeFitsExactly | lmbench3/src/lib_timing.c:1210-1216 | on every run the merge fits merged_results when repetitions are positive or the children at most TRIES; with several children whose batches all took time it holds as many samples as they were to take, and fits exactly then |
| BenchmpRuns.WholeRunsComplete | lmbench3/src/lib_timing.c:361-490 | every whole run can be continued until all results are merged and all children have exited; if its batches took time so far, with batches that all take time |
| BenchmpRuns.SomeRunOverflows | lmbench3/src/lib_timing.c:1210-1216 | for repetitions that are not positive and any number of children above TRIES, a run that ends with more merged samples than merged_results holds |
| Results.PositionIsFirst | lmbench3/src/lib_timing.c:1237-1243 | the scan stops at the first smaller sample |
| Results.ResultSet.FindPlace | lmbench3/src/lib_timing.c:1237-1238 | the scan loop finds that place |
| Results.InsertKeepsOrder | lmbench3/src/lib_timing.c:1226-1248 | insertion keeps the array biggest to smallest |
| Results.InsertAdds | lmbench3/src/lib_timing.c:1228-1248 | insertion adds exactly the sample, or nothing when its time is zero |
| Results.ResultSet.Insertsort | lmbench3/src/lib_timing.c:1228-1248 | shift and insert in place |
| Results.ResultSet.ShiftUp | lmbench3/src/lib_timing.c:1239-1241 | the inner loop moves the tail up by one and nothing else |
| Results.ResultSet.MergeBlock | lmbench3/src/lib_timing.c:480-483 | one block merged sample by sample |
| Results.InsertAllIsUnion | lmbench3/src/lib_timing.c:480-483 | merging one block gives the sorted multiset union |
| Results.MergeIsUnion | lmbench3/src/lib_timing.c:439-484 | merging all blocks gives the sorted multiset union of the blocks |
| Results.FlattenPermuted | lmbench3/src/lib_timing.c:439-484 | the order in which blocks arrive does not matter to the union |
| Results.MergedResults | lmbench3/src/lib_timing.c:439-484 | the merged array is the descending union of all samples, with as many entries |
| Results.CollectResults | lmbench3/src/lib_timing.c:439-484 | the parent's merge loop computes that array in place, whenever all samples fit it |
| Results.PartFits | lmbench3/src/lib_timing.c:480-483 | what is merged so far and the next block are never more than all samples together |
| Results.RoomExactly | lmbench3/src/lib_timing.c:1210-1216 | an array for all repetitions holds what the children are to take exactly when repetitions are positive or the children at most TRIES |
| Medians.SaveMedian | lmbench3/src/lib_timing.c:1278-1298 | the published time and count |
| Medians.EqualCountsMean | lmbench3/src/lib_timing.c:1284-1293 | the middle sample, or for two middle ones of equal count their count and the mean of their times; nothing in one iteration without samples |
| Medians.AverageBetweenExactly | lmbench3/src/lib_timing.c:1290-1293 | the averaged pair lies between the two middle samples for all their times exactly when the count of the larger ratio is an odd multiple of the other |
| Medians.OddMultipleBetween | lmbench3/src/lib_timing.c:1290-1293 | for such counts it does, rounding included |
| Medians.OtherCountsFail | lmbench3/src/lib_timing.c:1290-1293 | for every other pair of counts there are nonzero times, in that order, for which it does not |
| Medians.MedianBetweenMiddles | lmbench3/src/lib_timing.c:1278-1298 | a single middle sample, or two whose counts agree in that sense, put the published value between the middles |
| Medians.MedianMeansBetween | lmbench3/src/lib_timing.c:1278-1298 | a value is a median of all samples, however listed, exactly when it lies between the middle ones |
| Medians.MedianIsMedian | lmbench3/src/lib_timing.c:1278-1298 | then at least half of all samples are no smaller than the published value and at least half no larger |
| BitReversal.ReverseLoop | lmbench3/src/lib_mem.c:517-522 | the shift-and-or loop computes the reversal |
| BitReversal.RevRev | lmbench3/src/lib_mem.c:517-523 | reversing twice is the identity |
| BitReversal.RevPrefix | lmbench3/src/lib_mem.c:517-523 | the first 2^few indices reverse to multiples of a coarser step |
| Tables.WordsInitialize | lmbench3/src/lib_mem.c:505-526 | the offset table is the scaled bit reversal |
| Tables.DistinctExactlyForPow2 | lmbench3/src/lib_mem.c:513-524 | the offsets are pairwise distinct exactly for powers of two |
| Tables.BitOrderRange | lmbench3/src/lib_mem.c:513-524 | every offset is a multiple of the step inside the range |
| Tables.BitOrderCovers | lmbench3/src/lib_mem.c:513-524 | every multiple of the step inside the range is an offset |
| Tables.BitOrderPrefix | lmbench3/src/lib_mem.c:513-524 | the first pagesize/L offsets are exactly the table for the coarser line L |
| Shuffles.Permutation | lmbench3/src/lib_timing.c:1638-1660 | multiples of scale in the order that the random numbers make: distinct, aligned and inside the buffer |
| Shuffles.ShuffledOrder | lmbench3/src/lib_timing.c:1652-1657 | the exchanges from the end rearrange any list in the same order |
| Shuffles.EveryOrderReached | lmbench3/src/lib_timing.c:1652-1657 | every order is made by some exchanges |
| Shuffles.OneChoiceOnly | lmbench3/src/lib_timing.c:1652-1657 | and by one choice of them only |
| Shuffles.AnyOrder | lmbench3/src/lib_timing.c:1652-1657 | for every order there are random numbers that make it |
| Shuffles.CyclicExactly | lmbench3/src/lib_mem.c:471-479 | the order is a single cycle exactly when every exchange is with an earlier entry |
| Shuffles.EarlierExactly | lmbench3/src/lib_mem.c:471-479 | tlb_initialize reaches the orders of a single cycle and no others |
| Tables.TablesSeparated | lmbench3/src/lib_mem.c:297-303 | different page, line and word indices address different cells |
| Tables.CellsAreAllWords | lmbench3/src/lib_mem.c:311-336 | over whole pages the chain covers every aligned word of its pages and nothing else |
| PointerChain.CycleFromPath | lmbench3/src/lib_mem.c:311-336 | a closed path without repetition is one cycle over its cells |
| Lanes.LanesCycle | lmbench3/src/lib_mem.c:311-336 | links lane by lane make one cycle over every word of every line meant to be visited, of the stated length |
| Lanes.LanesRun | lmbench3/src/lib_mem.c:311-336 | where the chase is after how many steps: lane by lane, page by page, line by line |
| LibMem.BaseInitialize | lmbench3/src/lib_mem.c:128-170 | counts, a buffer for all pages and a random page order |
| LibMem.LinkLine | lmbench3/src/lib_mem.c:315-318 | the byte-stepped loop links every word of a line to the same word of the next line |
| LibMem.LinkWords | lmbench3/src/lib_mem.c:326-336 | the word loops link a line to another, rotated by one word at the end of a lane |
| LibMem.SetStart | lmbench3/src/lib_mem.c:319-323 | link l sets start point l/stride, and no other, exactly when stride divides l |
| LibMem.StartWord | lmbench3/src/lib_mem.c:319-323 | start point k is the k-th word, counted round, of the line that in-page link k*stride leaves |
| LibMem.StartsDiffer | lmbench3/src/lib_mem.c:319-323 | no two chases start at the same word |
| LibMem.PointerOnChain | lmbench3/src/lib_mem.c:319-323 | every start point is a word of the chain |
| LibMem.AllStartsExactly | lmbench3/src/lib_mem.c:319-323 | when no slot of p holds a word of the chain beforehand, the first width slots all hold one afterwards exactly when the last of them falls on an in-page link |
| LibMem.WholePagesStartAll | lmbench3/src/lib_mem.c:319-323 | over whole pages, with a width that divides the number of lines, that is exactly when the width is less than the lines of a page |
| LibMem.BuildPage | lmbench3/src/lib_mem.c:314-324 | the lines of one page as far as the pointer count allows |
| LibMem.BuildChain | lmbench3/src/lib_mem.c:311-336 | whatever the counts, the loops leave one cycle; start points lie on it |
| LibMem.MemInitialize | lmbench3/src/lib_mem.c:280-343 | one cycle of nwords times all its lines, lane by lane; start point k is the word in use after k*stride in-page links, if there are as many, else unset; the first is the first word of the first page |
| LibMem.PointerCount | lmbench3/src/lib_mem.c:297-300 | the pointer count lies between the whole pages before the last and all pages |
| LibMem.WholeLast | lmbench3/src/lib_mem.c:311-324 | with whole pages the last page has all its lines |
| LibMem.FullyLinkedExactly | lmbench3/src/lib_mem.c:311-324 | the last page has all its lines exactly when the lines in len are as many as the counter needs |
| LibMem.ChainLengthExact | lmbench3/src/lib_mem.c:311-324 | the chain has len/line lines exactly when len is whole pages or one page with at least a line |
| LineChains.LinkHeads | lmbench3/src/lib_mem.c:379-390 | the loops of line_initialize link the first words of all lines into one cycle |
| LineChains.LineInitialize | lmbench3/src/lib_mem.c:352-398 | one cycle through the first word of every line of every page, page by page in table order, entered at the first page |
| LineChains.Redirect | lmbench3/src/lib_mem.c:587-596 | the redirecting and repairing loops over the pages |
| LineChains.RedirectedCycle | lmbench3/src/lib_mem.c:587-596 | while redirected, the first lines of all pages form one cycle |
| LineChains.RepairRestores | lmbench3/src/lib_mem.c:619-636 | repairing restores every cell |
| LineChains.BlockHeads | lmbench3/src/lib_mem.c:579-596 | the heads used are exactly the first words of the blocks of the tested size |
| LineChains.LineTest | lmbench3/src/lib_mem.c:574-637 | during the test one cycle visits exactly one word in each block of every page, page by page in table order; afterwards memory is as before |
| Thrash.LinkSkewed | lmbench3/src/lib_mem.c:246-250 | the stores for one page, skewed by a line from page to page |
| Thrash.SkewCycle | lmbench3/src/lib_mem.c:239-260 | one cycle over every line of every page once; with more than one page no step stays on its page |
| Thrash.SkewRun | lmbench3/src/lib_mem.c:243-258 | where the chase is after how many steps: through all pages, on each one entry further in the table |
| Thrash.ThrashPages | lmbench3/src/lib_mem.c:243-258 | the loops leave those links |
| Thrash.ThrashLines | lmbench3/src/lib_mem.c:234-237 | the loop for a partial page follows the table |
| Thrash.LinesCycleExactly | lmbench3/src/lib_mem.c:231-238 | that loop gives a cycle of as many cells as table entries exactly when no entry repeats |
| Thrash.FollowedRun | lmbench3/src/lib_mem.c:231-238 | the chase follows the table |
| Thrash.ThrashInitialize | lmbench3/src/lib_mem.c:202-262 | both branches: over whole pages a cycle over all lines in the stated order, else one exactly when the number of lines is a power of two, in the order of the table |
| TlbChain.ShufflePages | lmbench3/src/lib_mem.c:471-479 | the first page stays first, the others come in the order that the random numbers make |
| TlbChain.EveryPageMoves | lmbench3/src/lib_mem.c:471-479 | of several pages after the first none keeps its place, whatever the random numbers |
| TlbChain.LinkPages | lmbench3/src/lib_mem.c:481-486 | the stores follow the list of one word per page |
| TlbChain.StopsCycle | lmbench3/src/lib_mem.c:481-487 | one cycle with exactly one word of every page |
| TlbChain.StopsRun | lmbench3/src/lib_mem.c:481-487 | the i-th word of the chase is on page i at offset lines[i modulo nlines] |
| TlbChain.OffsetsRunRound | lmbench3/src/lib_mem.c:483-486 | any run of as many pages as a page has words uses different offsets exactly when that is a power of two, and then every offset of a word |
| TlbChain.TlbInitialize | lmbench3/src/lib_mem.c:418-494 | for any page addresses and random numbers: the order of the pages, the word that each step of the chase reaches, one cycle with one word a page, entered at the first page |
| ParMem.StartOnChain | lmbench3/src/lib_mem.c:660-677 | every start point is in range and on the chain, partial last page included |
| ParMem.StartsApartExactly | lmbench3/src/lib_mem.c:660-677 | the chases start at different words exactly when there are as many lines or as many words in a line as chases |
| ParMem.StartPosition | lmbench3/src/lib_mem.c:662-677 | how many steps along the chain each chase starts: evenly spaced lines in evenly spaced lanes |
| ParMem.SetStarts | lmbench3/src/lib_mem.c:660-677 | the loop stores those start points and leaves the others |
| DramPage.RewritePage | lmbench3/src/lat_dram_page.c:120-148 | one pass over the words of a page rewrites each from its old value only |
| DramPage.Regroup | lmbench3/src/lat_dram_page.c:106-149 | both passes: the pages of a group are visited line by line, as far as its last page is linked; other pages are untouched |
| DramPage.FoldLinks | lmbench3/src/lat_dram_page.c:130-148 | folding the last page back makes the group's links |
| DramPage.GroupsCycle | lmbench3/src/lat_dram_page.c:165-171 | group by group the chain is one cycle of the stated length, a short last group and a partial last page included |
| DramPage.GroupCellsExactly | lmbench3/src/lat_dram_page.c:130-148 | that cycle visits the same words as before exactly when the last page is fully linked or alone in its group |
| DramPage.GroupsRun | lmbench3/src/lat_dram_page.c:106-149 | where the chase is after how many steps: lane by lane, group by group, line by line through the pages of a group |
| DramPage.RegroupAll | lmbench3/src/lat_dram_page.c:165-171 | the loop over the groups rewrites all of them |
| DramPage.DramPageInitialize | lmbench3/src/lat_dram_page.c:154-174 | for every length and group size one cycle from the first page on, its length, its entry in p[0], and exactly when it still visits all words that were linked; over fully linked pages every word of the pages |
| CacheMeasure.MeasurableCounts | lmbench3/src/cache.c:395-400 | pages and lines a size uses |
| CacheMeasure.WirePages | lmbench3/src/cache.c:409-415 | linking page after page keeps all links inside pages, even for a list that repeats a page |
| CacheMeasure.WiredChain | lmbench3/src/cache.c:409-419 | wiring a list without repetition gives one cycle over it |
| CacheMeasure.MeasureWires | lmbench3/src/cache.c:409-419 | whatever the page order, the wired prefix is the cycle of nwords*(size/line) words that the size calls for |
| CacheMeasure.Measure | lmbench3/src/cache.c:385-459 | while measuring, one cycle through the first pages unless the list repeats one; afterwards all in-page links are intact, for every list |
| CacheMeasure.WordCountExact | lmbench3/src/cache.c:691-728 | that count is the size/sizeof(char*) check_memory expects exactly when the size ends within a word after a line |
| CacheMeasure.ReorderKeeps | lmbench3/src/cache.c:395-419 | any reordering of the page list keeps the in-page links, so measure can be called again |
| CacheMeasure.FindPage | lmbench3/src/cache.c:705-718 | the two lookup loops, from the page found last and from the start, miss exactly the pages that are not listed |
| CacheMeasure.Walk | lmbench3/src/cache.c:698-725 | the walk along a cycle counts every word and meets no bad reference and no unwanted cycle |
| CacheMeasure.CheckMemory | lmbench3/src/cache.c:682-732 | on memory wired to a size the check reports a wrong count exactly when the size ends a word or more after a line, and nothing else |
| CacheMeasure.Prepare | lmbench3/src/cache.c:255-298 | when the last page is fully linked, collect_data leaves memory measurable with the pages in address order |
| PageLists.PassedIsMirrored | lmbench3/src/cache.c:469-475 | where a swap pass puts each entry, also when chunk and tail overlap |
| PageLists.PassTwice | lmbench3/src/cache.c:469-483 | two identical swap passes restore the list, overlapping or not |
| PageLists.PassMovesChunkOut | lmbench3/src/cache.c:469-475 | after one pass the first npages-chunk pages are exactly those outside the chunk |
| CacheChunks.ChunkRemoved | lmbench3/src/cache.c:476-476 | the shortened length needs npages-chunk pages and ends in the same line |
| PageLists.SwapLoop | lmbench3/src/cache.c:469-475 | the loop performs that pass |
| CacheChunks.RemoveChunk | lmbench3/src/cache.c:462-486 | measure gets exactly the pages outside the chunk, one cycle through them unless the list repeats a page; the list comes back as it was |
| PageLists.SortingStep | lmbench3/src/cache.c:742-747 | exchanging page and latency together keeps the pairs |
| PageLists.SmallestFirst | lmbench3/src/cache.c:741-748 | the inner loop brings the smallest remaining latency, with its page, to the front |
| PageLists.Pagesort | lmbench3/src/cache.c:734-750 | sorted by latency, every page keeps its latency, nothing else moves |
| PageLists.MovedShifts | lmbench3/src/cache.c:571-578 | where the exchange loop of fixup_chunk puts each page, also when chunk and tail overlap |
| PageLists.MoveReorders | lmbench3/src/cache.c:571-578 | after it the same pages are listed |
| PageLists.MoveBackExactly | lmbench3/src/cache.c:663-670 | running that loop again moves the chunk back exactly when chunk and tail do not overlap |
| CacheChunks.Probe.MoveChunk | lmbench3/src/cache.c:571-578 | the loop performs that move |
| CacheChunks.Probe.KeepGood | lmbench3/src/cache.c:582-598 | slots are split into those that cost nothing and those that do; each page is recorded with the latency of a run that had it as the last page; other pages stay |
| CacheChunks.Probe.Sift | lmbench3/src/cache.c:587-597 | one round of that loop: which pages and size are measured, and what becomes of the last page |
| CacheChunks.Probe.SortRest | lmbench3/src/cache.c:599-602 | the remaining slots are sorted with their pages, the kept ones stay |
| CacheChunks.Probe.TrySpare | lmbench3/src/cache.c:624-636 | one spare page is measured in place of slot j and, if better than the worst, takes the last slot with its latency; the remaining slots stay sorted |
| CacheFixup.NextSubstitute | lmbench3/src/cache.c:617-618 | the first spare page tried is the last one, each next one a place further down, from the second again to the last |
| CacheFixup.EachSpareOnce | lmbench3/src/cache.c:617-618 | in as many consecutive rounds as there are spare pages but the first, each of these is tried exactly once |
| CacheFixup.RoundsGoOn | lmbench3/src/cache.c:643-643 | the next call goes on with the spare page after the last one tried |
| CacheChunks.Probe.TrySpares | lmbench3/src/cache.c:615-641 | a slot is passed only when its recorded latency costs nothing; stops when all are passed or after twice npages tries |
| CacheChunks.Probe.SubstituteBad | lmbench3/src/cache.c:571-641 | the first part of fixup_chunk computes Substituted from its measurements; unless the tries ran out, every page of the chunk then cost nothing when it was measured |
| CacheChunks.Probe.KeepOrBackOut | lmbench3/src/cache.c:645-676 | substitutions that do not pay are backed out as far as bcopy saved the list, others stay and the chunk moves back |
| CacheChunks.EntriesRestored | lmbench3/src/cache.c:568-569 | an entry is restored exactly when its low bytes are among the sizeof(int) bytes a page that are copied |
| CacheChunks.Probe.FixupChunk | lmbench3/src/cache.c:547-680 | computes Fixed from its measurements, for any width and byte order of a pointer; the baseline only goes down, to what was measured last; unless the tries ran out the chunk then holds only pages that cost nothing when measured; the next call goes on with the next spare page; exactly one spare page makes it take a remainder by zero |
| CacheFixup.SubstitutedShuffles | lmbench3/src/cache.c:571-641 | whatever is measured, only the pages from the chunk to the end of the spare ones are rearranged |
| CacheFixup.SafeKeepsPages | lmbench3/src/cache.c:645-676 | when bcopy saves the whole list, or nothing behind the start of the chunk, no measurement loses a page |
| CacheFixup.LastRunLoses | lmbench3/src/cache.c:563-680 | measurements that lose a page when the end of what is restored lies behind the pages in use, or the chunk is moved, with baselines as test_chunk passes them |
| CacheFixup.FirstRunLoses | lmbench3/src/cache.c:563-680 | measurements that lose a page when the end of what is restored lies inside a chunk that is not moved, with baselines as test_chunk passes them |
| CacheFixup.NeverLosesExactly | lmbench3/src/cache.c:568-569 | fixup_chunk keeps every page for all measurements, and all baselines that test_chunk passes, exactly when bcopy restores the whole list or nothing behind the start of the chunk |
| CacheTest.TestKeepsPages | lmbench3/src/cache.c:488-536 | from a safe start on, test_chunk loses no page whatever is measured, through all its levels |
| CacheTest.TestLoses | lmbench3/src/cache.c:488-536 | measurements that lead test_chunk down to its first small range and make it lose a page there, with nothing reported as changed |
| CacheTest.SampleNeverLosesExactly | lmbench3/src/cache.c:362-383 | a sample of several pages keeps all pages for all measurements exactly when bcopy restores the whole list or nothing |
| CacheTest.TestFaults | lmbench3/src/cache.c:488-536 | with one spare page, low measurements lead test_chunk to the remainder by zero |
| CacheTest.SampleNeverFaultsExactly | lmbench3/src/cache.c:362-383 | no measurements make a sample take a remainder by zero exactly when it has one page or does not leave exactly one spare |
| CacheChunks.Probe.TestChunk | lmbench3/src/cache.c:488-536 | computes Tested from its measurements; terminates, reports a change exactly when it has lowered the baseline, and tests ranges of a twentieth that tile its range, or fixes up a small chunk |
| CacheChunks.Probe.TestRange | lmbench3/src/cache.c:507-533 | one round of its loop: the runs without the range, and exactly when it is looked into or left |
| CacheChunks.Probe.CollectSample | lmbench3/src/cache.c:362-383 | computes Sampled from its measurements: the size as it is first, then up to eight rounds, the last of which is the eighth or changed nothing; with pointers as wide as int the list keeps all its pages |
| CacheSearch.HalvesRefine | lmbench3/src/cache.c:355-358 | refining both halves refines the whole |
| CacheSearch.LeftStillFresh | lmbench3/src/cache.c:355-358 | doing the right half first leaves the left half unsampled inside |
| CacheSearch.Search | lmbench3/src/cache.c:334-361 | neighbouring samples carry the ratio of their final latencies, at least 0.98, and at most 1.35 unless adjacent; every final latency is what collect_sample measured for that size, or that of the right neighbour when this is less by more than a fiftieth; each size visited is in the middle of two sampled ones that differ by more than 1.35 |
| CacheSearch.SampleMiddle | lmbench3/src/cache.c:355-355 | the entry gets the latency that a sample of its size has measured, from where the search had got to |
| CacheVisits.GroundedJoin | lmbench3/src/cache.c:355-358 | when both halves keep measured latencies, or that of the right neighbour, so does the whole |
| CacheVisits.BisectsJoin | lmbench3/src/cache.c:339-358 | every size visited halves the gap between two sampled before it |
| CacheData.CountSamples | lmbench3/src/cache.c:262-269 | the first loops count the sizes |
| CacheData.SizesExactly | lmbench3/src/cache.c:262-269 | the sizes in closed form, four a doubling, and exactly those up to maxlen |
| CacheData.InitSamples | lmbench3/src/cache.c:271-283 | the second loops store the sizes, unsampled |
| CacheData.WholeLinesSamplable | lmbench3/src/cache.c:262-283 | sizes in whole lines in a maxlen of whole pages, as by default, meet all that is asked of them |
| CacheData.DefaultSizesSamplable | lmbench3/src/cache.c:262-283 | when the first size is a power-of-two part of a page, as 512 bytes are, and a line is neither longer than it nor than a quarter page, the sizes meet it in every maxlen of at least two pages, a partial last page included |
| CacheData.Bracket | lmbench3/src/cache.c:300-302 | the smallest and the largest size are measured first, over the pages in order |
| CacheData.CollectData | lmbench3/src/cache.c:240-332 | from setting up memory to the end of the search: the ratio property holds of all sizes, and every latency is traced to its measurement, the two ends to the first two |
| LatFs.FullChild | lmbench3/src/lat_fs.c:164-172 | the iterated ceilings split off one full subdirectory exactly |
| LatFs.NextChild | lmbench3/src/lat_fs.c:133-143 | the precomputed count agrees with filling one subdirectory after the other |
| LatFs.CountDirs | lmbench3/src/lat_fs.c:164-172 | ndirs is the directories below the root plus one, and depth is the least that is enough for the files |
| LatFs.TerminatesExactly | lmbench3/src/lat_fs.c:164-172 | the iterated ceilings come down to one top directory exactly with a fan-out of two or more, or of one and a single file |
| LatFs.CountFiles | lmbench3/src/lat_fs.c:134-136 | the loop computes the files that fit below one subdirectory |
| LatFs.EnoughDirs | lmbench3/src/lat_fs.c:137-138 | the loop bound never stops before the files are placed |
| LatFs.DirsCount | lmbench3/src/lat_fs.c:127-150 | the recursion makes as many directories as were counted |
| LatFs.FilesCount | lmbench3/src/lat_fs.c:127-150 | the recursion names as many files as were asked for |
| LatFs.DirsDistinct | lmbench3/src/lat_fs.c:127-150 | no two directories have the same name |
| LatFs.FilesDistinct | lmbench3/src/lat_fs.c:127-150 | no two files have the same name |
| LatFs.DirsParents | lmbench3/src/lat_fs.c:127-150 | every directory is made after its parent |
| LatFs.FilesHoused | lmbench3/src/lat_fs.c:127-150 | every file lies in one of the directories |
| LatFs.FewEntries | lmbench3/src/lat_fs.c:138-148 | no directory holds more than max entries |
| LatFs.FilesAreDigits | lmbench3/src/lat_fs.c:127-150 | file k is called by the digits of k to the base max, one for each level |
| LatFs.DirsNeeded | lmbench3/src/lat_fs.c:137-142 | no directory is made that has no file below it |
| LatFs.SetupNamesRecurse | lmbench3/src/lat_fs.c:126-150 | advances both counters by exactly the predicted amounts, never stores out of bounds, and every mkdir succeeds |
| LatFs.FillChildren | lmbench3/src/lat_fs.c:133-143 | the branch for inner directories |
| LatFs.FillLeaf | lmbench3/src/lat_fs.c:144-149 | the branch for directories that hold files |
| LatFs.RootJoins | lmbench3/src/lat_fs.c:152-201 | the whole tree: distinct names, parents first, files housed, at most max entries each |
| LatFs.SetupNames | lmbench3/src/lat_fs.c:152-201 | for every file count and fan-out for which the count of directories ends, all slots are filled with such a tree, no deeper than needed, file k called by its digits, no directory without files; the error message is never due |
| LatFs.LastIsEmpty | lmbench3/src/lat_fs.c:217-222 | when the later directories are gone the last one left has no other in it |
| LatFs.CleanupNames | lmbench3/src/lat_fs.c:203-225 | removing in reverse order no rmdir fails and nothing is left |
| LatFs.TreeCleansUp | lmbench3/src/lat_fs.c:203-225 | what setup_names builds is what cleanup_names needs |
| LibStats.Pythagoras | lmbench3/src/lib_stats.c:592-597 | the merit of another line is the merit of a normal one plus the square of their distance |
| LibStats.SolvesNormal | lmbench3/src/lib_stats.c:568-588 | a line satisfies the normal equations exactly when it has the coefficients regression computes |
| LibStats.NormalIsBest | lmbench3/src/lib_stats.c:592-597 | a line with the normal equations beats every other line, strictly |
| LibStats.SpreadPositive | lmbench3/src/lib_stats.c:569-587 | with two distinct x the divisor Stt is positive |
| LibStats.Sums | lmbench3/src/lib_stats.c:558-565 | the first loop computes the weighted inner products |
| LibStats.CentredSums | lmbench3/src/lib_stats.c:567-579 | the second loop computes Stt and the sum for b |
| LibStats.MeritSum | lmbench3/src/lib_stats.c:592-597 | the third loop computes chi2 |
| LibStats.MeritAdds | lmbench3/src/lib_stats.c:594-597 | each measurement adds its squared distance from the line, in units of its variance, or as it is when there are none |
| LibStats.ErrorFormulas | lmbench3/src/lib_stats.c:581-601 | the reported errors are the propagated variances: a and b are fixed linear functions of y with those square sums |
| LibStats.Regression | lmbench3/src/lib_stats.c:550-602 | returns the line that satisfies the normal equations, whose chi2 is the unique minimum, with the squared errors |
| GetOpt.Getopt.Next | lmbench3/src/getopt.c:32-116 | the call itself, updating the globals |
| GetOpt.AssertionKept | lmbench3/src/getopt.c:48-48 | the assertion holds first and keeps holding, except exactly after a "d;" error before a shorter option word |
| GetOpt.AssertionFails | lmbench3/src/getopt.c:96-103 | a command line for which it fails |
| GetOpt.ErrorNamesLetter | lmbench3/src/getopt.c:62-118 | an error is returned exactly for a letter that is no option or lacks its argument, optopt is then that letter, and but for a joined argument the next call stops there again |
| GetOpt.ReadGroup | lmbench3/src/getopt.c:63-115 | successive calls report one word of clustered options and its argument |
| GetOpt.RenderedIsRead | lmbench3/src/getopt.c:32-116 | any rendering of an option list is read back in order, ending with EOF at the first operand |
| GetOpt.ReadMeansWritten | lmbench3/src/getopt.c:32-116 | from any point on, what is read until EOF is what is written there |
| GetOpt.ReadsWhatIsRendered | lmbench3/src/getopt.c:32-116 | calls until EOF return a list and operands exactly when the command line is a rendering of both |
| LibSched.ReverseBits | lmbench3/src/lib_sched.c:106-122 | counts the bits and reverses them |
| LibSched.SpreadsExactlyWhenRegular | lmbench3/src/lib_sched.c:106-122 | reversal modulo the processor count is injective exactly for 2^k and 2^k-1 processors |
| LibSched.IrregularMisses | lmbench3/src/lib_sched.c:100-122 | with any other count some processor is never used |
| LibSched.PinnedApart | lmbench3/src/lib_sched.c:217-230 | two numbers are pinned to one processor exactly when they agree modulo the allowed count |
| LibSched.ChooseCpu | lmbench3/src/lib_sched.c:48-95 | the processor each policy asks for |
| LibSched.SelectAllowed | lmbench3/src/lib_sched.c:219-230 | exactly the bit of the chosen allowed processor is set |
| LibSched.Affinity.GetAffinity | lmbench3/src/lib_sched.c:203-216 | the allowed processors are asked for and counted once |
| LibSched.Affinity.SchedPin | lmbench3/src/lib_sched.c:177-239 | the mask holds one allowed processor, the cpu-th modulo their count |
| LibSched.Affinity.HandleScheduler | lmbench3/src/lib_sched.c:45-98 | the processor a process ends on, or none |
| LibSched.LogicalDistinct | lmbench3/src/lib_sched.c:33-44 | benchmark processes and their children have different logical numbers |
| LibSched.BalancedSpreadPins | lmbench3/src/lib_sched.c:63-71 | all children get processors of their own exactly for 2^k or 2^k-1 processors, all allowed |
| LibSched.BalancedPins | lmbench3/src/lib_sched.c:57-62 | BALANCED: the processes of a benchmark share a processor, different benchmarks that fit have different ones |
| LibSched.BalancedGoesRound | lmbench3/src/lib_sched.c:57-62 | with more benchmarks than processors it goes round them |
| LibSched.UniqueSpreadPins | lmbench3/src/lib_sched.c:78-86 | processes that fit get different processors on such a machine |
| LibSched.UniqueSpreadExactly | lmbench3/src/lib_sched.c:78-86 | all processes that fit get processors of their own exactly for 2^k or 2^k-1 processors, all allowed |
| LibSched.UniquePins | lmbench3/src/lib_sched.c:72-77 | UNIQUE needs no condition on the count |
| LibSched.UniqueGoesRound | lmbench3/src/lib_sched.c:72-77 | UNIQUE puts process childno*(nbenchprocs+1)+benchproc on that processor, counted round |
| LibSched.SinglePins | lmbench3/src/lib_sched.c:54-56 | SINGLE puts all processes on the first allowed processor |
| LibSched.CustomPins | lmbench3/src/lib_sched.c:87-92 | CUSTOM and CUSTOM_UNIQUE give process id the entry of the list at id modulo its length |
| LibSched.PinnedUnlessDefault | lmbench3/src/lib_sched.c:51-97 | DEFAULT and unknown policies leave the placement alone, all others pin to an allowed processor |

## Left out

- Clocks, signals, alarms, fork and exec, timeouts, `select` and every error exit of the harness: only "a byte is available" and "read or write bytes" remain; runs are fault-free.
- `BENCH_INNER` in bench.h, which may resize the batch itself; nothing is claimed for the count it saves.
- Floating-point rounding and machine integer widths (overflow, `1 << bit` beyond the width of int).
- Running out of memory; in particular collect_data halving maxlen and par_mem halving len.
- BenchmpRuns.MergeFitsExactly: says how many samples there are, not what a merge that does not fit overwrites.
- HarnessChild.WarmupCallRefines: only calls that nobody interrupts; a lost race for the start byte is a step of BenchmpRuns.
- HarnessChild.CooldownCallRefines: only calls that nobody interrupts, with the block written at once; partial writes are steps of Harness and BenchmpRuns.
- BenchmpChild.SingleChildFinishes: assumes time exactly proportional to iterations and enough of at least 150 microseconds, as the resizing formula does.
- LibMem.MemInitialize: the start width must not exceed the number of lines, else the source divides by zero; when there is no in-page link the source leaves p[0] unset and nothing is promised of it.
- LineChains.LineTest: the tested line must be a power-of-two multiple of the line the chain was built with; line_find's choice of sizes and its timing are not modelled.
- Thrash.ThrashInitialize: needs at least one whole line, without which the source stores through an empty table.
- DramPage.DramPageInitialize: the width is bounded as for MemInitialize; when there is no in-page link nothing is promised of p[0].
- CacheMeasure.Measure: sizes that end in less than a line wire a line before the first and are excluded; the size of a page is the state's pagesize; what the chain is when the list repeats a page is not stated.
- CacheMeasure.CheckMemory: the comparison `q == *q` has no effect in the source, so q stays at the second word.
- CacheMeasure.Prepare: maxlen must leave the last page fully linked (`LibMem.FullyLinkedExactly`); otherwise measure would follow words of that page that nothing has written.
- CacheChunks.Probe.FixupChunk: measurements are arbitrary, so pages are good as measured and no more; the move to the end is not undone when nothing was swapped. Pages in use are pages of maxlen; with more, which takes a size that reaches into a partial last page of maxlen, the source indexes its spare pages with negative numbers, before the list when there are two. An entry of the list is as wide as a pointer.
- CacheChunks.Probe.TestChunk: sizes that reach into a partial last page of maxlen are excluded, as in FixupChunk; after a remainder by zero the process is gone; the model then goes on with the list and the baseline unchanged, and records the fault.
- CacheChunks.Probe.CollectSample: sizes that reach into a partial last page of maxlen are excluded, as in FixupChunk; none of the default sizes that are sampled does from two pages on (`CacheData.DefaultSizesSamplable`).
- CacheData.CollectData: measured latencies are positive, so the loop that measures the largest size again is not entered; at least two sizes are sampled; find_cache is not modelled.
- stride_initialize, the warming loads after each builder, and mem_reset.
- LatFs.SetupNames: a path is a sequence of numbers below the temporary directory instead of a string; with a fan-out of one and more than one file the source does not terminate; only directories are tracked in the file system, so files are taken to be removed before cleanup.
- LibStats.Regression: requires nonzero deviations and two distinct x, without which the source divides by zero; sig_a and sig_b are given as squares, without the final square roots.
- GetOpt.ReadsWhatIsRendered: says nothing of calls after an error was returned; ErrorNamesLetter says what the next call does.
- LibSched.Affinity.SchedPin: the kernel's answer is a parameter and at least one processor is allowed; its failure, and other systems' calls, are not modelled.
- LibSched.ChooseCpu: the parsing of the CUSTOM list is left out; the list is a parameter.
- Bandwidth and latency bodies, sockets, RPC, HTTP, lmdd, printing and the scripts: input and output, unrolled arithmetic or formatting.
