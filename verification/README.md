# Verified model of the Enzian memory tools

A Dafny model of three programs: the memory benchmark (`mb_enzian.c`), the CSV-to-Redis loader and its
queries (`redis_fpga.c`), and the wait flag of the FPGA interrupt driver (`enzian_fpi.c`). `dafny verify
dfyconfig.toml` checks all of it.

## What is modelled

**Pointer chase** (`BitMath`, `FullPeriod`, `LatencyTest`). The links `o -> (13*o + 7) & (l-1)` are written into the
cache lines of an array and followed by an eight times unrolled loop. The generator is proved to have full period for
every power of two, so the links are one cycle through all lines; the two loops are proved to lay out this cycle and
to walk it, every line the same number of times.

**Core-to-core ping-pong** (`PingPong`, `PingPongHistory`, `PingPongProgress`). A state machine over the two threads,
the main thread and the start barrier, with a store buffer for each thread. One turn is one volatile access, one
fence, one barrier entry or exit, or one buffered store reaching memory; a schedule is any sequence of turns, and a
turn that is not possible changes nothing. The round count n stands for the 1000 of the source and the first memory
contents are arbitrary. The sequentially consistent runs are those that drain each store at once. Fairness is
expressed by blocks: a block of a schedule is fair when every actor has a turn in it.

**Barrier-phased workers** (`Workers`, `WorkersRounds`, `WorkersSlices`, `WorkersLoops`, `WorkersProgress`). The same
kind of state machine for `start_threads` with any number n >= 1 of workers. The barrier is the usual generation
counter with a count of the threads inside; entering and leaving are separate turns, so fast threads can enter the
next wait before slow ones have left the last one. Every vector access is a turn; the guard of the line loop is tested
once for the eight vectors of a line, so a slice that is no whole number of lines is overrun (`WorkersSlices`). `Job`
covers the writing, clearing and reading workers. `WorkersLoops` has the nested loops of the writing and the reading
worker on an array and proves that running them is taking that worker's turns.

**CSV pipeline** (`CStrings`, `Lines`, `Fields`, `Numbers`, `Redis`, `Dataset`, `Loader`, `DatasetRows`, `Queries`,
`Pipeline`, `Tables`, `SumLaws`, `Places`, `Arena`). `next_line`, `strtok_r` (section 7.24.5.8 of ISO/IEC 9899:2011
for `strtok`, made reentrant as in POSIX.1) and the loader are methods that overwrite one character buffer and keep
offsets into it. `Dataset.Load` says what a load means as a function of the text; the methods are proved to compute
it, and the lemmas of `DatasetRows` and `Pipeline` are about it. The server is a class around a map of maps; HGETALL
answers in any order, or fails; a ghost log holds every HGETALL and its reply.

**Interrupt wait flag** (`WaitFlag`, `WaitFlagRuns`). Any number of reading threads and of cores running the handler.
`wait_event_interruptible` is modelled by its standard loop (test, enqueue, test again, sleep until a wake-up takes the
thread off the queue), each access one turn. A log records when the flag is set, when a reader clears it and when a
reader returns.

## What the code relies on

Each is a precondition of the theorem that needs it, or stated here.

- The first data row has at least as many tokens as there are columns (`Dataset.FirstRowComplete`): the code reads
  that many saved pointers.
- Column names are distinct after clipping to 63 characters, and rows 2, 3, ... that an earlier load left in the store
  are worth nothing under these names. Both are needed, and together enough: `SumLaws.SumLawIff`. That the store holds
  no `row:<n>` keys at all (`DatasetRows.NoRows`) is more than enough.
- A slice of the throughput test is a whole number of 128-byte lines: `WorkersSlices.KeepToSlicesIffWholeLines`. It is
  a multiple of 16 bytes in any case, or the vector accesses would not be aligned.
- An allocation size for which the end address does not wrap: `Arena.BoundTestSound`.
- A NUL in the file hides the rest of it. Nothing is assumed: the loader is proved for the visible part
  (`Dataset.Visible`), which is the whole file exactly when it has no NUL.
- Sums fit a `long long`, the file is shorter than 2^31 bytes (then the row counter fits an `int`, by
  `DatasetRows.RowCountBounded`), and a mapping does not reach into the last 63 bytes of the address space.
- No signal interrupts the wait of a reader.

## Where a claim had to be made exact

- The ping-pong measures real round trips exactly when its count is not 1 (`PingPongHistory.SafeIffNotOne`): with one
  round the initial 1 passes for the echo. Under the same condition the echoes follow the rounds and every round is
  echoed (`PingPongHistory.EchoesClimbIffNotOne`, `EchoesAllIffNotOne`). That the test ends, and ends with the 0
  visible, holds for every count.
- The tokeniser drops empty cells, so a token counts for an earlier column (`Places.MovedToken`) exactly when an empty
  cell comes before a non-empty one (`Places.TokensInPlaceIff`); `Places.SummedByPlaceIff` says when that shows in a
  sum.
- "Between two returns of a reader there is an interrupt" is false when the interrupt comes between the clearing of
  the flag and the return (`WaitFlagRuns.ReturnsWithoutInterruptBetween` is such a run). It is true of the clears
  (`InterruptBetweenClears`), and a reader outside the call needs a further interrupt exactly when the flag is clear
  (`NeedsInterruptIffFlagClear`).

## Model

| member | source | states |
|---|---|---|
| BitMath.MaskIsMod | mb_enzian.c:333 | masking with 2^k - 1, bit by bit, is the remainder by 2^k |
| BitMath.AlignMask | redis_fpga.c:45 | masking with the complement of 2^k - 1 on w-bit words subtracts the remainder |
| FullPeriod.XDivisible | mb_enzian.c:331-336 | the unreduced n-th link is divisible by 2^k exactly when n is, for all n and k |
| FullPeriod.FullPeriod | mb_enzian.c:331-336 | two steps of the walk from line 0 reach the same line of 2^k lines exactly when their numbers agree modulo 2^k |
| FullPeriod.ReturnsToZero | mb_enzian.c:331-342 | the walk is back at line 0 after n steps exactly when 2^k divides n |
| FullPeriod.EveryLineVisited | mb_enzian.c:331-336 | every line is on the cycle, at exactly one step of each period |
| LatencyTest.LinkIsStep | mb_enzian.c:333 | the 64-bit masked expression is 13*o + 7 modulo the number of lines, without overflow |
| LatencyTest.HopsDivisibleBy8 | mb_enzian.c:302-305 | 8 divides ITS*l for every size, so the unrolled loop drops no hop |
| LatencyTest.FillLinks | mb_enzian.c:330-336 | the fill loop leaves (13*o + 7) mod l in the first 64-bit word of each of the l = 2^size / 128 lines of 16 words, and changes no other word; all accesses are in bounds |
| LatencyTest.WalkVisitsEveryLine | mb_enzian.c:343-353 | a walk of its*2^k hops reads each line exactly its times and ends at line 0 |
| LatencyTest.ChaseOnce | mb_enzian.c:302-353 | one pass starts at line 0, follows the links and ends at line 0; it makes 32 loads up to 2 kB, spread evenly over the lines, and from 4 kB on one load of every line |
| LatencyTest.DoLatencyTest | mb_enzian.c:294-360 | after the fill all five passes do that and leave the memory as filled |
| PingPong.RunKeepsInv | mb_enzian.c:428-460 | in every run, with any drain order of the store buffers, the values under way belong to the previous or the current round only |
| PingPong.LoadSeesOwnStore | mb_enzian.c:439-452 | a load sees the thread's own newest store to that line while it is under way, and the memory otherwise |
| PingPongHistory.ManyRoundsAreSafe | mb_enzian.c:437-442 | whenever thread 1 leaves the spin of round i, both lines hold i, thread 2's newest store is i and nothing else is under way |
| PingPongHistory.SafeIffNotOne | mb_enzian.c:433-442 | no stale value is ever taken for an echo, exactly when the count is not 1 |
| PingPongHistory.OneRoundIsUnsafe | mb_enzian.c:433-442 | with count 1 some run accepts the initial 1 before thread 2 has stored anything |
| PingPongHistory.EchoHistory | mb_enzian.c:449-458 | in every run thread 2's stores are a prefix of: 1s, then n one or more times, and so on down to 1, then 0 exactly once |
| PingPongHistory.EchoesClimbIffNotOne | mb_enzian.c:433-458 | that holds in all runs exactly when the count is not 1 |
| PingPongHistory.EveryRoundEchoed | mb_enzian.c:437-458 | when thread 1 has finished, every round number has been echoed |
| PingPongHistory.EchoesAllIffNotOne | mb_enzian.c:433-458 | that holds in all runs exactly when the count is not 1 |
| PingPongHistory.NoEarlyZero | mb_enzian.c:433-435 | for every count, thread 2 never holds a 0 before thread 1 has published round 0, whatever the memory held before the test |
| PingPongHistory.FinalZeroVisible | mb_enzian.c:453-457 | for every count, when thread 2 stops, its 0 is in memory and its store buffer empty |
| PingPongProgress.HelpfulHelps | mb_enzian.c:428-504 | every reachable state short of the end has an actor whose turn lowers the rank, so none is stuck |
| PingPongProgress.NextHarmless | mb_enzian.c:428-504 | no turn raises the rank, and one that keeps it keeps the helpful actor |
| PingPongProgress.TestEnds | mb_enzian.c:468-504 | for every count n, 16n + 35 fair blocks of any schedule end both threads and the main thread, with 0 in both lines |
| PingPongProgress.DestroyedOnce | mb_enzian.c:497-501 | a run has destroyed the barrier exactly once if it has ended, and not at all otherwise |
| PingPongProgress.RoundRobinEnds | mb_enzian.c:468-504 | there is such a schedule: the actors in turn, from any memory contents |
| Workers.SlicesDisjoint | mb_enzian.c:172-173 | vectors of different workers, or different vectors of one, have different addresses |
| Workers.PassStaysInSlice | mb_enzian.c:180 | the line loop stays in the slice exactly when that is a whole number of lines |
| Workers.RunKeepsBarrier | mb_enzian.c:142-160 | in every run the barrier count is the number of threads inside, and each thread is in step with the generations completed |
| WorkersRounds.WaitsInStep | mb_enzian.c:151-154 | completed waits of any two workers, and of a worker and main, differ by at most one |
| WorkersRounds.WaitsApart | mb_enzian.c:151-154 | counted along any run, two threads never have come out of the barrier more than once apart |
| WorkersRounds.FourWaits | mb_enzian.c:151-154 | in every complete run every worker and the main thread come out of exactly four waits |
| WorkersRounds.NoRoundOverlap | mb_enzian.c:176-191 | no worker is in a round before every worker has finished all earlier rounds |
| WorkersRounds.RoundsInMemory | mb_enzian.c:176-191 | while some worker is in round k, each vector has been accessed between k*itn and (k+1)*itn times by each worker whose lines hold it |
| WorkersRounds.DestroyIsSafe | mb_enzian.c:156-160 | when main destroys the barrier nobody is inside it and every worker has ended |
| WorkersRounds.DestroyedOnce | mb_enzian.c:155-161 | a run has destroyed the barrier exactly once if it has ended, and not at all otherwise |
| WorkersRounds.OnlyOwnPass | mb_enzian.c:172-191 | a worker's turn changes nothing outside the lines that start in its slice |
| WorkersRounds.FinalMemory | mb_enzian.c:164-197 | after any complete run each vector has been accessed exactly 4*itn times by each worker whose lines hold it, and holds the pattern if there is such a worker; all other memory is unchanged |
| WorkersSlices.KeepToSlicesIffWholeLines | mb_enzian.c:172-191 | in all runs no worker touches anything outside its slice, exactly when 128 divides the slice size or there are no passes |
| WorkersSlices.NeighbourOverrun | mb_enzian.c:172-191 | otherwise, after any complete run, the first vector of every slice but the first has been accessed by a second worker as well |
| WorkersSlices.FinalMemoryOfWholeLines | mb_enzian.c:164-197 | with whole lines, every vector of the slices has been accessed exactly 4*itn times and holds the pattern, and no other is touched |
| WorkersLoops.StoreRound | mb_enzian.c:176-191 | the two loops of one round of the writing worker write the pattern into all its lines and nowhere else; the area is the memory after the run of the machine in which only this worker has turns, one per store, and its round is over |
| WorkersLoops.LoadRound | mb_enzian.c:240-285 | the same for the reading worker, which changes nothing and ends with its last line in its buffer |
| WorkersLoops.TurnsAccess | mb_enzian.c:176-191 | after n turns of its round a worker is at the n-th vector of its passes, and has accessed exactly the vectors before it, as often as it passed them |
| WorkersProgress.SomeoneMoves | mb_enzian.c:142-160 | no deadlock: until main is done some thread can move |
| WorkersProgress.NoEndlessRun | mb_enzian.c:142-197 | no schedule, fair or not, holds more effective turns than the rank of its first state |
| WorkersProgress.TestEnds | mb_enzian.c:134-162 | a fair schedule completes the test |
| Arena.AlignUpIsLeast | redis_fpga.c:43-45 | the aligned cursor is the least multiple of 64 not below the cursor |
| Arena.MaskAligns | redis_fpga.c:43-45 | the mask expression on 64-bit words computes it |
| Arena.BlocksAreGood | redis_fpga.c:43-53 | the blocks of any sequence of requests are aligned, of the size asked for, pairwise disjoint, increasing, between base and cursor, with at most 63 bytes lost per request |
| Arena.FpgaArena.SetupMapping | redis_fpga.c:56-75 | a mapping makes an empty arena; without one the allocator keeps its state |
| Arena.TestWithoutWrap | redis_fpga.c:47-50 | a request whose end does not wrap is rejected exactly when that lies beyond the end of the arena |
| Arena.BoundTestExact | redis_fpga.c:47-52 | a request that passes the bound test lies inside the arena exactly when its end does not wrap |
| Arena.BoundTestSound | redis_fpga.c:47-52 | the test keeps all blocks of sizes below a limit inside the arena exactly when no such size wraps |
| Arena.FpgaArena.Alloc | redis_fpga.c:32-54 | for any size: an allocation takes the next block of that layout and sets the cursor to its end modulo 2^64, or fails and changes nothing, as the wrapped bound test says; without wrapping the block is inside the arena |
| Lines.SplitThenRejoin | redis_fpga.c:146-162 | the lines with their separators give the text back, and are lines |
| Lines.RejoinThenSplit | redis_fpga.c:146-162 | putting any lines together and splitting again gives these lines: the split is the only one |
| Lines.NextLine | redis_fpga.c:146-162 | next_line cuts off exactly the first line, without a carriage return before its newline, moves the cursor strictly on to the rest of the text, and writes only in between |
| Lines.NewlineSeparates | redis_fpga.c:146-162 | a line ends at a newline and at one carriage return before it; text without a newline is a line as it is |
| Fields.FieldsAreNonEmptyParts | redis_fpga.c:188-195 | the tokens of a line are its non-empty parts between commas |
| Fields.CommaSeparates | redis_fpga.c:188-195 | a token ends at a comma, and commas in front of it are skipped |
| Fields.RowThenFields | redis_fpga.c:188-195 | writing non-empty comma-free fields as a row and tokenising it gives them back |
| Fields.FieldsThenRow | redis_fpga.c:188-195 | writing the tokens of any line as a row and tokenising that gives the same tokens |
| Fields.StrtokR | redis_fpga.c:188-195 | strtok_r returns the next field, leaves the fields after it for the next call and writes only between the saved pointer and the end of the line |
| Numbers.AtollOfPrinted | redis_fpga.c:235 | atoll of any number printed with %d is the number |
| Numbers.AtollReads | redis_fpga.c:321 | any white space, at most one sign, leading zeros, a number and anything that does not go on with a digit: the number with its sign |
| Numbers.AtollOfNoDigit | redis_fpga.c:321 | without a digit after white space and sign: 0 |
| Numbers.DecimalPlaces | redis_fpga.c:248 | printing is decimal, digit by digit |
| Dataset.VisibleIsWholeFile | redis_fpga.c:131-140 | the loader sees the whole file exactly when it holds no NUL |
| Dataset.VisibleUpToNul | redis_fpga.c:140 | a NUL hides itself and everything after it |
| Dataset.IntTokenCharacters | redis_fpga.c:210 | a token counts as int exactly when all its characters are among 0 to 9 and the minus sign |
| Dataset.PrintedIsIntToken | redis_fpga.c:209-213 | every printed integer, negative ones too, counts as int |
| Dataset.NamesOfFields | redis_fpga.c:189-195 | one name for each of the first 32 fields, whole up to 63 characters and cut to 63 beyond |
| Loader.ReadFile | redis_fpga.c:117-143 | the next arena block, one byte longer than the file, is taken; the buffer starts with the visible text, terminated; a missing file or a short read gives no buffer, a full arena ends the process |
| Loader.TokenKept | redis_fpga.c:205-216 | a token pointer still denotes its token after the following strtok_r calls |
| Loader.ParseHeader | redis_fpga.c:187-196 | the schema gets one column for each of the first 32 fields, its name the field's first 63 characters, assumed int; the text after the header is untouched |
| Loader.InferTypes | redis_fpga.c:205-216 | a column stays int exactly when its token has only digits and minus signs; every saved pointer denotes its field once the whole row is tokenised |
| Loader.StoreFirstRow | redis_fpga.c:232-240 | the saved pointers store the fields of the first row |
| Loader.StoreRemainingRows | redis_fpga.c:242-257 | the loop stores exactly the non-empty remaining lines under consecutive row numbers |
| Loader.LoadDataset | redis_fpga.c:164-261 | store, schema and row count are those of Dataset.Load on the visible text; without the whole file in a buffer there are 0 rows and no change |
| DatasetRows.RowKeyInjective | redis_fpga.c:248 | distinct rows never share a key |
| DatasetRows.RowKeyText | redis_fpga.c:234-248 | a row key is "row:" and the decimal digits of its number, without leading zeros |
| DatasetRows.RowsMerged | redis_fpga.c:232-260 | into any store: the fields of each line are added to what its row holds, all other rows stay |
| DatasetRows.RowsLoaded | redis_fpga.c:232-260 | into a store without rows: the count is 1 plus the non-empty lines after the first data line, row r holds the hash of its line, and no key beyond row:1..row:N is a row |
| DatasetRows.RowsByText | redis_fpga.c:232-260 | with the keys read as text: "row:" and a number holds the hash of the data line of this number, up to the row count and no further |
| DatasetRows.NothingLoaded | redis_fpga.c:180-203 | without a data row nothing is stored and the columns of a header all count as int |
| DatasetRows.TokensStored | redis_fpga.c:238-256 | row r maps the name of column i to the i-th token of its line, for as many columns as there are tokens, and nothing else |
| DatasetRows.SchemaLoaded | redis_fpga.c:218-230 | the schema hash maps every name to its inferred type and has no other field, whatever it held before |
| DatasetRows.OtherKeysUntouched | redis_fpga.c:218-257 | keys other than the schema and the rows keep their hashes |
| DatasetRows.RowCountBounded | redis_fpga.c:233-260 | the row counter never exceeds the length of the text |
| Queries.TotalIsStoreSum | redis_fpga.c:306-323 | whatever order the replies list the fields in, they sum up to what the store holds |
| Queries.OthersIgnored | redis_fpga.c:307-310 | replies that are no arrays might as well not be there, for the sum and for the count |
| Queries.PairsCount | redis_fpga.c:317-323 | a complete pair of the column's name counts with the value atoll reads, any other pair and an element left over with nothing |
| Queries.ColumnsCount | redis_fpga.c:314-325 | every int column of the schema counts for itself, any other one with nothing |
| Queries.Aggregate | redis_fpga.c:338-374 | one HGETALL per row is sent; the sum is that of the array replies, and that of the store when every reply is an array |
| Queries.Project | redis_fpga.c:292-336 | one HGETALL per row is sent; total and count are those of the array replies, total equals the aggregation's sum, and count the rows when every reply is an array |
| Pipeline.EndToEnd | redis_fpga.c:164-374 | with distinct names and harmless leftovers, what the queries read from the loaded store is the direct sum of the int columns over the text's rows |
| Tables.TableLoaded | redis_fpga.c:164-261 | a table of printed integers and of words, loaded into a store without rows: every cell is found under "row:" and its row number and under its column name, as it was written, and the columns have their types |
| Tables.TableQueried | redis_fpga.c:164-374 | loaded and queried, with every reply an array, it gives the sum of its integers |
| SumLaws.RepeatedNameBreaksSum | redis_fpga.c:190-194 | with a repeated clipped name one data row is enough to make the sum wrong, whatever the store holds |
| SumLaws.LeftoverBreaksSum | redis_fpga.c:243-257 | a left-over row that is worth something in a column makes the sum of some file with short rows wrong |
| SumLaws.SumLawIff | redis_fpga.c:187-257 | for a given store and header, the sums are right for every body exactly when the clipped names are distinct and no left-over row 2, 3, ... is worth anything under them |
| SumLaws.SumLawIffDistinctNames | redis_fpga.c:190-194 | into a store without rows, they are right for every body exactly when the clipped names are distinct |
| Places.TokensInPlaceIff | redis_fpga.c:205-216 | the tokens of a line keep their columns exactly when no empty cell comes before a non-empty one |
| Places.SummedByPlaceIff | redis_fpga.c:205-257 | for a schema and a pattern of empty cells, the sums are those of the cells in their places, whatever the cells hold, exactly when each non-empty cell counts in the column its token gets if and only if it counts in its own |
| Places.CsvInPlace | redis_fpga.c:205-257 | the sum of a text whose data lines all meet this condition is that of its cells, each in its place |
| Places.CompactCsvInPlace | redis_fpga.c:205-257 | so it is when no data line has an empty cell before a non-empty one |
| Places.MovedToken | redis_fpga.c:205-257 | a value in any cell of any line counts in the column given by the number of non-empty cells before it |
| Pipeline.LoadAndQuery | redis_fpga.c:455-468 | the store is the loaded one, each query sends one HGETALL per loaded row and sums the array replies it gets; that is the sum of the file's int columns when the server answers, and 0 with nothing sent when the file could not be read |
| WaitFlagRuns.Reachable | enzian_fpi.c:77-99 | in every run the flag agrees with the log, no wake-up is lost, clears are separated by interrupts and returns belong to clears |
| WaitFlagRuns.InterruptBetweenClears | enzian_fpi.c:79-82 | between two clears by one reader an interrupt sets the flag |
| WaitFlagRuns.InterruptBetweenReturns | enzian_fpi.c:79-82 | between two returns of a reader an interrupt sets the flag, or did after the clear before the first |
| WaitFlagRuns.ReturnsWithoutInterruptBetween | enzian_fpi.c:79-82 | the exception happens: a run with two returns and no interrupt between them |
| WaitFlagRuns.NeedsInterruptIffFlagClear | enzian_fpi.c:79-82 | a reader outside the call cannot return before a further interrupt, under every schedule, exactly when the flag is clear |
| WaitFlagRuns.InterruptConsumed | enzian_fpi.c:80-95 | after every interrupt the flag is still set, or a later clear took it and its reader has returned since or is about to |
| WaitFlagRuns.NoLostWakeUp | enzian_fpi.c:79-97 | while the flag is set, a sleeping reader has been woken or a handler is about to wake it |
| WaitFlagRuns.WakeUpEmptiesQueue | enzian_fpi.c:92-97 | a wake-up takes every reader off the wait queue and changes no other one |
| WaitFlagRuns.LaterTestsAreQueued | enzian_fpi.c:79-80 | after the first test a reader tests the flag only when it has enqueued since it last slept, sleeps only when it found the flag clear, and goes on only when woken |
| WaitFlagRuns.InterruptWakesAReader | enzian_fpi.c:77-99 | with the flag set and a reader inside the call, six fair blocks of any schedule bring a return |

## Left out

- PingPong.RunKeepsInv: loads take effect in program order; the reordering of loads that Arm allows besides store buffering is not modelled.
- PingPongHistory.SafeIffNotOne: the FPGA as the echoing party (`second_cpu == -1`), whose program is not in the repository.
- LatencyTest.DoLatencyTest: cycle counts, the base latency loop of `nop`s, the average and what is printed.
- WorkersRounds.FinalMemory: the minimum of the cycle counts and its mean over the workers; the `dc zva` of the clearing worker counts as the eight vector stores of its line.
- WorkersLoops.StoreRound: the loops of the clearing worker, which differ from those of the writing worker in the access alone; prefetch hints of the reading worker.
- Workers.RunKeepsBarrier: the 128 entries of `tids` and the affinity calls; threads are created in order and always start.
- Queries.Aggregate: sums are mathematical integers and `atoll` has no range limit; a sum outside a `long long` is not modelled.
- Arena.FpgaArena.Alloc: the heap fallback's own behaviour, and calls after one whose end wrapped.
- Loader.ReadFile: the file's bytes and what fread delivers are parameters; the buffer is an array of its own, the arena counts its block.
- Redis: connection handling, reply memory, errors of HSET and DEL, persistence settings and `INFO memory`.
- WaitFlagRuns.Reachable: the ioctl that sends interrupts, module setup and teardown, signals, and the memory barriers, which add nothing when every access is one turn in a total order.
- `query_select_all`, `query_select_gaussian` and `gaussian_key`: replies are thrown away; only clocks and floating point remain.
- `do_seq_latency_test` and `main` of `mb_enzian.c`: a plain read loop, option parsing, mapping and output.
- `redis_loader.c`: an older near-copy of `redis_fpga.c` that does not compile.
- `enzian_memory.c`, `mem.c`, `receive_fpi.c`, `send_fpi.c`: kernel plumbing and I/O wrappers.
