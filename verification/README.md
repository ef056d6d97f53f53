# Cache benchmark suite: verified model

The repository measures how programs use the caches of an Intel processor. It starts benchmark
threads that share an array, reads performance counters around each sweep over that array, and
carries a copy of the `rdmsr` and `wrmsr` tools. This project models the five pieces of it that
hold logic of their own and proves what they promise.

1. **The shared-array benchmarks** (`benchmarks.cc`). Any number of threads race on `sa_flag`,
   allocate and fill `shared_array` (possibly several times, replacing it under each other's
   feet), wait for each other on `can_run`, and sweep the array. `Protocol.dfy` is the
   interleaved transition system, with one shared access per step: `shared_array[j]` is a load of
   the pointer followed by an access through the loaded value. The other `Protocol*.dfy` files
   prove what holds over all interleavings, for any number of threads,
   any mix of functions, any array length and any contents of fresh memory.
   `BenchmarkThreads.dfy` writes the parts of the benchmark functions as imperative code over
   shared variables, lets the other threads move arbitrarily between any two accesses, and proves
   that every such execution is a run of the transition system, so that the theorems apply to it.
   `Recording.dfy` assembles the benchmark functions from these parts and from the recording of
   counter readings and time stamps, and adds the printing of the main program.
2. **`rdmsr` and `wrmsr`** (`msr-tools`). `Numerals.dfy` models the number conversions of
   sections 7.21.6.1 (`fprintf`) and 7.22.1.4 (`strtoull`) of C11 and `Words.dfy` its bitwise
   operators; `Rdmsr.dfy` models the option parsing, the bit-field extraction and the switch over
   24 modes; `RdmsrText.dfy` and `RdmsrOutput.dfy` prove what the printed text is worth;
   `MsrTools.dfy` runs both tools on the device files of the processors.
3. **`configure_counters`** (`main.cc` and `main_ritika.cc`). `Counters.dfy` runs the sequence of
   register accesses on a machine whose enabled counters may advance, on every processor, before
   any access. `RegisterLayouts.dfy` holds the bit fields of `types.h`.
4. **`xorshift128plus`** (`benchmarks.hh`), in `Xorshift.dfy`.
5. The **row-wise and column-wise sweeps** over `arr_2d`, in `Traversal.dfy`.

Some properties one might expect are false of the code; the model keeps the code as it is and
states exactly when it holds:

- A program can crash: when one thread raises `sa_flag` and another skips the setup before the
  array is allocated, that thread goes through a null pointer. `ProtocolExposure.CrashPossible`
  gives the exact condition on the functions the threads run, for any number of threads; for the
  pair that `main` starts it says that thread 0 touches the array (`ProtocolExposure.PairExposed`).
- Threads of t1 to t4 can access a cell that has not been filled under exactly the same condition
  (`ProtocolExposure.StaleAccessPossible`, where the access may be a store). A measured read can
  meet such a cell if and only if a thread for which the condition holds has a reading sweep
  (`ProtocolStaleReads.StaleReadPossible`); t2 with one iteration, for example, has none. For the
  pair, `ProtocolPair.ZeroFirstIsSafe` gives an order of the flag that is enough to exclude both.
- A program can hang: `ProtocolProgress.StuckExactlyWhen` names the pairings of functions, and
  `ProtocolFairness.FairRunsFinish` shows that nothing else keeps a fair run from ending.
- What `rdmsr` prints outside the C-language form is not always read back by `wrmsr` as the same
  value: `RdmsrText.RoundTrip` gives the exact condition mode by mode.
- Even in C-language form only the formatted line reads back. `rdmsr` prints a debugging line
  first, and with it the whole output, as one operand, always reads as zero
  (`MsrTools.WholeOutputAsOperand`); word by word it makes `wrmsr` write four values, the field
  last, and leaves an earlier one if one of them is refused (`MsrTools.WholeOutputAsWords`).
- "Signed decimal" output is the sign-magnitude reading of the field, not the two's-complement
  one; `RdmsrText.SignMagnitudeRange` says when they agree.
- The C-language decimal modes ignore the zero-fill option, although the help text does not say so:
  `RdmsrText.FilledWidthExact` says for which values the output is filled all the same, and
  `RdmsrText.UnfilledZero` gives one for which it is not.
- `wrmsr` with several values is not all or nothing: what was written before a value is refused
  stays written (`MsrTools.Wrmsr`).
- The comment above the table of digit counts gives 0 digits for 0 bits; the table has 1, so that
  row 0 alone is not exact (`DecimalDigits.TableExact`).
- A recorded difference stays exact when a 64-bit register wraps once, fewer than 2^64 events having
  occurred, but not when a narrower one does: `Recording.DeltaExact` and `Recording.ShortSweeps`.
- `main_ritika.cc` can leave bits of the fixed-counter control register in place that `main.cc`
  clears: `Counters.VariantsAgree`.
- The write benchmark counts its sweeps without stamping them, so that the printing loop indexes
  past the recorded times as soon as there is a sweep: `Recording.ThreadRows`.

Assumptions. Memory is sequentially consistent with one shared access per step (the program is
built with `-O0`), and `malloc` succeeds. The benchmark records fit their 50000 columns. `arr_2d`
starts on a line boundary. A processor implements the registers `configure_counters` accesses, and
an accepted write leaves the value written in the register. The number of fixed counters, 0 in the shipped build, is the parameter `fixed`; the counter table is a
parameter too, and the shipped table is shown to meet its conditions. Options, their numeric
arguments and the outcome of their conversion arrive as data, as `getopt_long`, `strtoul` and
`sscanf` deliver them. Unsigned words are numbers below 2^64: a shift divides or multiplies by a
power of two (section 6.5.7 of C11), negation and complement are arithmetic modulo 2^64 (sections
6.2.5 and 6.5.3.3), and `&` works bit by bit (section 6.5.10); that the masks of `rdmsr` then keep a
remainder, test a bit or clear it is proved in `Words.dfy`.

## Model

| member | source | states |
|---|---|---|
| ProtocolInvariant.StepInv | benchmarks.cc:28-47 | every step of every thread keeps the invariant: pointers in flight are null or live, the shared pointer designates the youngest array, there is one array per thread that allocated, an open gate means thread 0 is done, and only a thread that skipped the setup can crash |
| ProtocolInvariant.ExecInv | benchmarks.cc:23-102 | the invariant holds in every reachable state |
| ProtocolCells.ExecSuccInv | benchmarks.cc:419-449 | write benchmark: any cell of the current array that is not yet j + 1 has a thread that still owes it that write |
| ProtocolCells.WriteBenchmarkResult | benchmarks.cc:419-449 | when all threads of the write benchmark have finished, the current array holds j + 1 at every j, for any number of threads and any interleaving, racing initialisers included |
| ProtocolCells.ExecIndexInv | benchmarks.cc:28-36 | t1 to t4: any cell that does not hold j is still owed its fill by the allocator of the current array |
| ProtocolCells.IndexBenchmarkResult | benchmarks.cc:165-168 | when all threads of any mixture of t1 to t4 have finished, cell j of the current array holds j |
| ProtocolCells.FilledOutsideSetup | benchmarks.cc:28-36 | with an array published and no thread in its setup block, every cell is filled |
| ProtocolStable.IndexLoopsKeepCells | benchmarks.cc:329-332 | once the setup is over, every interleaving of the t1 to t4 loops keeps j in cell j and never replaces the array |
| ProtocolStable.WriteLoopsMonotone | benchmarks.cc:437-441 | once the setup is over, a step of the write loops leaves a cell alone or makes it j + 1, and a cell never goes back |
| ProtocolStable.OnePassSettlesForGood | benchmarks.cc:432-449 | as soon as one thread has completed one sweep begun after the setup, all cells hold j + 1 for good |
| ProtocolHistory.FlagHistory | benchmarks.cc:28-31 | the flag is up exactly when some earlier step raised it |
| ProtocolHistory.InitialiserHistory | benchmarks.cc:28-36 | a thread enters its setup block exactly when its test of the flag precedes the first set |
| ProtocolHistory.AllocationCount | benchmarks.cc:109-117 | a complete run allocates as many arrays as threads tested before the first set, at least one and at most one per thread |
| ProtocolHistory.SingleAllocation | benchmarks.cc:216-225 | exactly one array is allocated if and only if no second thread tests before the first set |
| ProtocolHistory.SetsFirstMeans | benchmarks.cc:28-31 | a thread raises the flag before any other tests it if and only if the flag is up and that thread alone ever entered its setup block |
| ProtocolHistory.FirstSetterAllocatesAlone | benchmarks.cc:28-36 | any number of threads, any functions: when a thread raises the flag before any other tests it, at most one array is ever allocated, it is that thread's, nobody else fills it, and a finished run has allocated it |
| ProtocolPair.ThreadOneReadsFilled | benchmarks.cc:122-149 | ids 0 and 1 in t1 or t2: every measured access of thread 1 goes to an allocated, completely filled array, in every run |
| ProtocolPair.MeasurementsDisjoint | benchmarks.cc:43-47 | any number of threads: as soon as id 1 runs t1 or t2, its measured sections never overlap those of id 0, and an open gate means that thread 0 has finished |
| ProtocolExposure.OverlapPossible | benchmarks.cc:229-234 | threads 0 and 1 can measure at the same time if and only if both make a sweep and id 1 runs t3, t4 or the write benchmark |
| ProtocolPair.GateMonotone | benchmarks.cc:96-99 | neither flag ever falls, in any run of any program |
| ProtocolPair.PairFault | benchmarks.cc:81-84 | the only crash of the pair is thread 0 going through a null pointer after thread 1 raised the flag |
| ProtocolPair.ZeroFirstIsSafe | benchmarks.cc:28-36 | the pair: when thread 0 raises the flag before thread 1 tests it, no run crashes and both threads only read filled arrays |
| ProtocolAccesses.AccessesInOrder | benchmarks.cc:136-200 | in every run a finished thread has made exactly these measured accesses in this order: t1 its iterations of loads of the cells from 0 to n modulo 2^32; t2 half of them of loads of all n cells, one sweep storing j in cell j, and half again; t3 nine load sweeps and the storing sweep, t4 the reverse; the write benchmark its iterations of stores of j + 1 |
| ProtocolAccesses.ObservedExactly | benchmarks.cc:81-84 | the loads and stores are observed from the steps themselves: a load changes nothing whatever the cell holds, a store leaves its value there, and nothing else changes |
| ProtocolAccesses.T1OnlyLoads | benchmarks.cc:81-84 | outside its setup block a thread of t1 never changes memory |
| ProtocolExposure.CrashPossible | benchmarks.cc:28-36 | any number of threads, any functions: some run crashes if and only if some thread that makes an access runs t1 or t2 as id 1 beside a t1 or t2 as id 0 and a third thread, or otherwise is not alone |
| ProtocolExposure.StaleAccessPossible | benchmarks.cc:28-36 | any number of threads that only store j in cell j: some run brings a thread to an access, a read or a store, of a live cell with a wrong value if and only if the same condition holds |
| ProtocolStaleReads.StaleReadPossible | benchmarks.cc:81-84 | any number of such threads: some run brings a thread to a measured read of a wrong value if and only if a thread that meets the condition has a reading sweep |
| ProtocolStaleReads.PairStaleReads | main.cc:28 | for the pair that main starts that is: if and only if thread 0 reads the array |
| ProtocolStaleReads.OneIterationOnlyStores | benchmarks.cc:135-168 | two threads of t2 with one iteration meet the condition, and no run of theirs reads a wrong value |
| ProtocolExposure.PairExposed | main.cc:28 | for the pair that main starts the condition is that thread 0 touches the array |
| ProtocolProgress.StepDecreases | benchmarks.cc:43-47 | a step changes nothing exactly when it is a spin or its thread is finished; every other step decreases a measure that is never negative |
| ProtocolProgress.RunsAreBounded | benchmarks.cc:122-126 | no schedule contains more effective steps than the initial measure |
| ProtocolProgress.QuietMeansDone | benchmarks.cc:203-206 | when nobody can do anything but spin, all threads have finished, or thread 1 waits for a gate that no thread will open |
| ProtocolProgress.StuckExactlyWhen | benchmarks.cc:229-234 | some run gets stuck if and only if id 1 runs t1 or t2 and id 0 runs t3, t4 or the write benchmark |
| ProtocolProgress.NeverDone | benchmarks.cc:285-288 | in such a pairing no run of any length finishes |
| ProtocolProgress.OtherwiseFinishes | benchmarks.cc:366-369 | in every other pairing a quiet state is one in which all have finished without a crash, and such a run exists |
| ProtocolFairness.FairRoundsFinish | benchmarks.cc:43-47 | as many rounds as the initial measure, each giving every thread a turn, end in a crash or a quiet state; outside the stuck pairings in a crash or with all threads finished |
| ProtocolFairness.FairRunsFinish | benchmarks.cc:122-126 | every infinite fair schedule reaches a state it never leaves: crashed, finished, or, in a stuck pairing alone, with thread 1 waiting for ever |
| BenchmarkThreads.Process.Interleave | main.cc:172-182 | between two accesses of a thread exactly the moves of the others in the schedule happen; the result is a run of the transition system that leaves that thread where it was |
| BenchmarkThreads.Process.Setup | benchmarks.cc:28-36 | the setup block, executed under interference, is a run of the transition system |
| BenchmarkThreads.Process.Await | benchmarks.cc:43-47 | the waiting loop, with no bound on its turns, ends with the gate open or the process crashed, whenever id 0 is one that opens the gate and keeps getting turns |
| BenchmarkThreads.Process.LoadCell | benchmarks.cc:81-84 | in the pair started by main, the value thread 1 loads from cell j is j |
| BenchmarkThreads.Process.Sweep | benchmarks.cc:81-84 | one sweep under interference; t1 compares with a 32-bit copy of n, the others with n itself |
| Recording.ThreadArgs.RunT1 | benchmarks.cc:23-102 | the whole function among other threads: a run of the transition system that ends with its thread finished, with the promised accesses made unless the process crashed, and with a complete record, one stamped column for each sweep whose readings enclose that sweep |
| Recording.ThreadArgs.RunT2 | benchmarks.cc:104-209 | likewise: reads, one write sweep, as many reads again |
| Recording.ThreadArgs.RunT3 | benchmarks.cc:211-291 | likewise: nine reads, then one write sweep |
| Recording.ThreadArgs.RunT4 | benchmarks.cc:293-372 | likewise: one write sweep, then nine reads |
| Recording.ThreadArgs.RunWriteAll | benchmarks.cc:413-453 | likewise, without time stamps; and when the last thread returns, the array behind the shared pointer holds j + 1 in cell j |
| Rdmsr.ParseOptions | msr-tools/msr-tools-1.2/rdmsr.c:107-161 | the loop over the options, of any length: the first stopping option decides the exit code, otherwise the mode word is the last radix combined with the two sticky flags, in whatever order they came |
| Rdmsr.NoOptions | msr-tools/msr-tools-1.2/rdmsr.c:95-98 | without options: hexadecimal, processor 0, the whole register |
| Rdmsr.Defaults | msr-tools/msr-tools-1.2/rdmsr.c:95-98 | any options without one that sets the radix, the processor or the field leave that at its default |
| Rdmsr.LastOneWins | msr-tools/msr-tools-1.2/rdmsr.c:118-156 | after any other options a radix, processor or field option decides its setting |
| Rdmsr.SingleOption | msr-tools/msr-tools-1.2/rdmsr.c:110-160 | each option alone, in numbers: the mode word, processor and field it sets, or the code it exits with |
| Rdmsr.ParsedInRange | msr-tools/msr-tools-1.2/rdmsr.c:142-156 | a parse that succeeds has a bit field within 63..0 and a processor number below 256 |
| Rdmsr.ModeUpdate | msr-tools/msr-tools-1.2/rdmsr.c:118-141 | a radix option replaces the radix and keeps the flags, a flag option raises its flag and keeps the radix |
| Rdmsr.DecodeMode | msr-tools/msr-tools-1.2/rdmsr.c:61-69 | every combination of radix and flags is one of the 24 modes and is recovered from its word |
| Words.MaskIsRemainder | msr-tools/msr-tools-1.2/rdmsr.c:207 | masking with n ones keeps the remainder modulo 2^n |
| Words.BitIsRemainder | msr-tools/msr-tools-1.2/rdmsr.c:224 | masking with one bit leaves that bit |
| Words.ClearingIsSubtraction | msr-tools/msr-tools-1.2/rdmsr.c:225 | masking with all ones but one clears exactly that bit |
| Rdmsr.ExtractField | msr-tools/msr-tools-1.2/rdmsr.c:203-208 | bit i of the data is bit low + i of the register up to bit high, and every other bit is clear |
| Rdmsr.AdjustSign | msr-tools/msr-tools-1.2/rdmsr.c:223-227 | testing and clearing the top bit and negating give the 64-bit negation of the rest, or the field unchanged |
| Rdmsr.Select | msr-tools/msr-tools-1.2/rdmsr.c:213-306 | the switch, case by case: adjusted data, format string and width; its default branch is taken exactly for words that are no mode |
| Rdmsr.Show | msr-tools/msr-tools-1.2/rdmsr.c:203-312 | the extracted field, printed through the selected format and width, is the line of its radix; the four raw modes dump the selected bits, as an initializer in exactly the two C-language ones |
| Numerals.PrintedDigits | msr-tools/msr-tools-1.2/rdmsr.c:311-312 | printed digits are digits of the base, without leading zeros, and worth the number printed |
| Numerals.LetterCase | msr-tools/msr-tools-1.2/rdmsr.c:214-219 | printed hexadecimal letters are lower case, or upper case for the capital modes; decimal and octal numerals have none |
| Numerals.DigitCount | msr-tools/msr-tools-1.2/rdmsr.c:51-59 | a number prints in at most k digits if and only if it is below the k-th power of the base |
| Numerals.ReadBack | msr-tools/msr-tools-1.2/wrmsr.c:113 | a numeral followed by anything that ends it is read as its value |
| Numerals.SmallerBaseRead | msr-tools/msr-tools-1.2/wrmsr.c:113 | a numeral read in a smaller base never gains, and keeps its value if and only if it is a digit of that base |
| Numerals.LargerBaseRead | msr-tools/msr-tools-1.2/wrmsr.c:113 | a numeral read in a larger base keeps its value if it is one digit and gains otherwise |
| DecimalDigits.TableExact | msr-tools/msr-tools-1.2/rdmsr.c:51-59 | row n of the table is the least number of decimal digits that holds every n-bit value if and only if n is not 0 |
| RdmsrText.RoundTrip | msr-tools/msr-tools-1.2/rdmsr.c:213-285 | every radix, flag, field width and value: the printed line is read back as the field if and only if the condition of its mode holds |
| RdmsrText.CLanguageRoundTrip | msr-tools/msr-tools-1.2/rdmsr.c:236-248 | in C-language hexadecimal, octal and unsigned decimal, with or without zero fill, every field reads back as itself |
| RdmsrText.PlainText | msr-tools/msr-tools-1.2/rdmsr.c:214-248 | the unfilled text in literals: 0x, 0 or nothing, the digits, U or nothing |
| RdmsrText.FilledText | msr-tools/msr-tools-1.2/rdmsr.c:249-285 | the filled hexadecimal and octal text in literals: the same prefix, then the digits padded to (bits + 3) / 4 and (bits + 2) / 3 |
| RdmsrText.FilledWidthExact | msr-tools/msr-tools-1.2/rdmsr.c:213-285 | every radix, form, width and value with the zero-fill option: the numeral has exactly the width of its radix if and only if it is no C-language decimal, or needs all digits (and, signed, the sign) anyway; no value overflows it |
| RdmsrText.UnfilledZero | msr-tools/msr-tools-1.2/rdmsr.c:245-248 | zero in unsigned decimal of a whole register prints 20 digits filled, and one in C-language form |
| RdmsrText.FilledWidthLeast | msr-tools/msr-tools-1.2/rdmsr.c:249-285 | no smaller width would do: the largest value fills it without padding (signed fields of two bits or more) |
| RdmsrText.SignedTextIsSignMagnitude | msr-tools/msr-tools-1.2/rdmsr.c:220-229 | the signed decimal text denotes the sign-magnitude reading of the field |
| RdmsrText.SignMagnitudeRange | msr-tools/msr-tools-1.2/rdmsr.c:257-265 | it is negative exactly when the top bit and another one are set, its magnitude is below 2^(bits-1), and it agrees with two's complement exactly when the top bit is clear or the rest is 2^(bits-2) |
| RdmsrText.SignedTextInjective | msr-tools/msr-tools-1.2/rdmsr.c:220-229 | two fields print alike in signed decimal only if they are equal or are the two zeros |
| RdmsrOutput.BannerReadsZero | msr-tools/msr-tools-1.2/rdmsr.c:201 | any text that begins with the debugging line reads as zero |
| RdmsrOutput.OutputReadsBack | msr-tools/msr-tools-1.2/rdmsr.c:107-312 | every option sequence that survives parsing and every register: the formatted line reads back as the selected field if and only if the condition of its mode holds, and always in C-language form other than signed decimal |
| RdmsrOutput.OutputBits | msr-tools/msr-tools-1.2/rdmsr.c:203-312 | in C-language form other than signed decimal, what is read back is bit for bit the selected part of the register |
| RdmsrOutput.OutputWords | msr-tools/msr-tools-1.2/rdmsr.c:201-312 | the whole output falls into four words: reg, data:, the register in bare hexadecimal, the formatted value |
| MsrTools.RegisterDigits | msr-tools/msr-tools-1.2/rdmsr.c:169 | the printed digits of a number select the register of that number, modulo 2^32 |
| MsrTools.ExitCodes | msr-tools/msr-tools-1.2/rdmsr.c:173-197 | 2 without the processor, 3 without MSR support, 4 for a refused access, 127 for other failures |
| MsrTools.Wrmsr | msr-tools/msr-tools-1.2/wrmsr.c:88-130 | the operands are converted and written in order until a value is not accepted; exactly the writes before it are made and stay, and every failure, from too few operands over a missing processor to a refused value, has its exit code |
| MsrTools.ReadMsr | msr-tools/msr-tools-1.2/rdmsr.c:95-315 | the whole program from options to output, with the exit code of every failure; the impossible case is never reached |
| MsrTools.ReadThenWrite | msr-tools/msr-tools-1.2/wrmsr.c:112-126 | any options with C-language form other than signed decimal: the formatted line written back puts the selected field in the register if the register accepts it, and changes nothing otherwise; without a bit-field option all registers keep their values either way |
| MsrTools.WholeOutputAsOperand | msr-tools/msr-tools-1.2/rdmsr.c:201 | the whole output as one operand writes zero, so the register keeps its value if and only if that is zero or zero is not accepted |
| MsrTools.WholeOutputAsWords | msr-tools/msr-tools-1.2/rdmsr.c:201 | the whole output word by word writes four values as far as they are accepted; the register ends with the selected field if all are, with the last accepted value if some are, and unchanged if none is |
| RegisterLayouts.PackUnpack | types.h:284-306 | the fields of an event select register cover its 64 bits, each exactly once |
| RegisterLayouts.PackUnpackFixed | types.h:221-244 | likewise for the fixed-counter control register |
| RegisterLayouts.AddBit | main.cc:127 | adding the bit of a new id to the mask sets that bit and carries nowhere |
| Counters.Machine.ResetCounters | main.cc:59-62 | the loop over the eight counters of a stopped processor clears them and nothing else |
| Counters.Machine.DisableFixed | main_ritika.cc:47-61 | writes the control register unconditionally, or only when an os, usr or enable_pmi bit is set |
| Counters.Machine.ProgramSelects | main.cc:98-129 | the loop over the table writes each custom row's select register and sums its bit into the mask |
| Counters.Machine.ConfigureCpu | main.cc:47-135 | whatever the counters did between any two accesses, at the last write the processor is in exactly the configured state, its counters at zero; other processors are untouched |
| Counters.Machine.ConfigureCounters | main.cc:43-136 | the loop over the processors, repeated ones included: each is left configured, and since then only its enabled counters may have moved; on every other processor, too, only enabled counters may have moved |
| Counters.ConfiguredMeaning | main.cc:98-132 | for a table with distinct ids and select registers: counters at zero, each select register unpacks to its row's event and unit mask with usr, edge and enable set, and bit k of the global mask is set exactly when a custom row or fixed counter has position k |
| Counters.ConfiguredWords | main.cc:108-124 | the select register of every custom row holds 0x450000 + 256 (umask mod 256) + evtnr mod 256 |
| Counters.ConfiguredCounts | main.cc:98-132 | the counter of every custom row whose position goes with its select register counts afterwards |
| Counters.FixedInNumbers | main.cc:76-94 | with 0, 1, 2 or 3 fixed counters their control register holds 0, 0x2, 0x22 or 0x222, and the global mask has as many bits from 32 on |
| Counters.LingersInNumbers | main_ritika.cc:51-61 | the bits tested by the conditional variant are those of 0xBBB, and the leftover bits that make the variants differ are given by a mask |
| Counters.ShippedState | types.h:374-389 | the shipped table leaves all counters at zero and enabled, the eight select words 0x45FF24 to 0x453024, the mask 0xFF and the fixed counters off |
| Counters.ShippedRows | types.h:374-389 | row c of the shipped table programs select register 0x186 + c, reads counter 0xC1 + c and has position c |
| Counters.EnabledAdvances | main.cc:98-132 | the environment does advance an enabled counter, so that counters standing still is a result |
| Counters.MaskBits | main.cc:127 | the summation of the mask never carries |
| Counters.ConfiguredForgetsThePast | main.cc:73-132 | the programmed registers depend on the table alone; all others keep what they held |
| Counters.ClearedForGood | main.cc:54-66 | after a call with set false the counters stay at zero through any number of environment steps |
| Counters.VariantsAgree | main_ritika.cc:47-90 | the two variants leave the same state if and only if no bit lingers: no os, usr or enable_pmi bit set, and yet an any_thread bit that is not reprogrammed, or a reserved bit |
| Counters.ShippedTableOk | types.h:374-389 | the shipped table has distinct ids and distinct select registers |
| Counters.ShippedMask | types.h:374-389 | it enables the counters 0 to 7 and nothing else |
| Xorshift.Xorshift128Plus | benchmarks.hh:85-93 | after the steps of one call the state before it can be recomputed from the two words left behind, and the number returned is their sum |
| Xorshift.FirstCall | benchmarks.hh:84-93 | the state and the number after the first call from the seed of the program |
| Xorshift.NextIsBijective | benchmarks.hh:85-93 | the state update is a bijection, with an explicit inverse |
| Xorshift.NextIsLinear | benchmarks.hh:85-93 | the state update is linear under exclusive or |
| Xorshift.RunIsInjective | benchmarks.hh:85-93 | equal states after k calls come from equal seeds |
| Xorshift.RunIsLinear | benchmarks.hh:85-93 | the difference of two runs is the run of the difference of their seeds |
| Xorshift.ZeroOnlyFromZero | benchmarks.hh:85-93 | a run meets the all-zero state if and only if it starts there |
| Xorshift.SeedNeverZero | benchmarks.hh:84-93 | the seed of the program never leads to the all-zero state |
| Xorshift.RepeatMeansCycle | benchmarks.hh:85-93 | a run that meets a state twice has come back to its seed |
| Xorshift.EveryRunIsPeriodic | benchmarks.hh:85-93 | every seed recurs |
| Recording.ThreadArgs.ReadValues | benchmarks.hh:135-141 | one access per named row of the table, each into its own slot, all while the thread stands between two sweeps |
| Recording.ThreadArgs.StoreDifferences | benchmarks.cc:87-91 | the differences of two readings go to the current column of each counter and no earlier column changes |
| Recording.ThreadArgs.Measure | benchmarks.cc:80-93 | one sweep over the shared array among other threads adds one complete column; the readings that start it come before the sweep, the ones that end it after |
| Recording.ThreadArgs.ColumnEncloses | benchmarks.cc:75-86 | of every recorded column the eight start readings are made with the thread about to begin that sweep, the eight end readings with it about to begin the next, and the time stamp before the first of them |
| Recording.ThreadArgs.Run | main.cc:174-182 | whichever function the thread runs: its thread finishes, the sweeps recorded are the passes of the transition system, and each is stamped except in the write benchmark |
| Recording.ThreadArgs.PrintRows | main.cc:200-211 | every printed row carries the stamp and the stored differences of its index; the loop overruns the stamps exactly when there are fewer stamps than counts |
| Recording.ShippedTableEnds | types.h:374-389 | the shipped table has eight named rows and then the row at which every loop over it stops |
| Recording.SweepCount | benchmarks.cc:136-200 | t1 measures `iterations` sweeps, t2 2(iterations/2) + 1, t3 and t4 ten |
| Recording.ThreadRows | main.cc:200-211 | a thread from start to printed rows among other threads: unless the process crashes, one row per sweep, holding in numbers its stamp and for each counter the register after minus the register before modulo 2^64, except that the write benchmark overruns as soon as it makes a sweep |
| Recording.DeltaExact | benchmarks.cc:87-91 | registers of any width up to 64 bits that never run backwards: a recorded difference is the number of events if and only if the register did not wrap during the sweep, or its wraps add up to 2^64 and the subtraction borrowed |
| Recording.FullWidthExact | benchmarks.cc:87-91 | for 64-bit registers that is: if and only if fewer than 2^64 events occurred, and the difference never exceeds their number |
| Recording.Conservation | benchmarks.cc:87-93 | registers of any width: printed column, events between sweeps and wraps add up to all events from first start to last end and the borrows |
| Recording.ShortSweeps | benchmarks.cc:87-93 | when no sweep sees as many events as a register holds, every wrap adds 2^64 minus that number to the column; so for narrower registers column and gaps add up to all events if and only if no end reading is below its start |
| Recording.FullWidthConservation | benchmarks.cc:87-93 | 64-bit registers: column and gaps never exceed all events, and equal them if and only if no sweep saw 2^64 events |
| Recording.NonWrapping | benchmarks.cc:87-93 | registers of any width that do not wrap: the column adds up to last reading minus first reading minus what fell between the sweeps |
| Traversal.Fill | benchmarks.cc:511-515 | every cell gets the sum of its indices |
| Traversal.ReadRows | benchmarks.cc:526-531 | the row-wise nest visits the cells in row order and loads each |
| Traversal.ReadColumns | benchmarks.cc:570-575 | the column-wise nest visits the cells in column order and loads each |
| Traversal.Transposed | benchmarks.cc:526-575 | where each cell is visited by the one nest and by the other |
| Traversal.SameCells | benchmarks.cc:526-575 | for every shape of array, the column-wise visits are a permutation of the row-wise visits |
| Traversal.LineEntries | benchmarks.cc:526-575 | with whole lines per row, row order enters one line per line of the array, column order one per element as soon as there are two rows |
| Traversal.SameLines | benchmarks.cc:526-575 | both touch the same lines, rows times lines per row of them |
| Traversal.ProgramArray | plots/double_non_cont_l2_smaller_len_pf_disabled.txt:13 | for 1024 rows of 16 elements and 8 elements to a line these numbers are 2048 and 16384 |

## Left out

- Interleavings are quantified over on values (`Protocol`), since the theorems speak about all schedules; the imperative form (`BenchmarkThreads`, `Recording`) puts one thread in the foreground at a time.
- BenchmarkThreads.Process.Await: requires that id 0 opens the gate and keeps getting turns; otherwise the loop of the program need not end, which `ProtocolProgress.NeverDone` and `ProtocolFairness.FairRunsFinish` describe.
- Memory reordering on the plain `can_run` flag and tearing of 64-bit accesses: sequential consistency is assumed.
- Failure of `malloc`, and what a record of more than 50000 sweeps overwrites.
- `fake_out_optimizations`, `clear_l1`, `clear_l2`, time stamps as real time, console output, and the half-array variant that is compiled out.
- `bm_cache_line_test`, `bm_single_d_array`, `oned_arrays`, `cache_work`, `file_work`: the same recording loop around bodies with no further logic, or with undefined behaviour.
- Thread creation, pinning, the CSV file itself and its header.
- The options of `wrmsr`: the model starts with the processor they select.
- The bytes of the raw dump modes of `rdmsr`; the model says when they are chosen and for which value.
- Width of the hardware counters: a counter of the machine is a 64-bit word, and a bump adds to it modulo 2^64.
- `assert(res >= 0)` on an unsigned result, which always holds, and the `break` for more than eight counters, which is never taken with a table of eight.
- The loop over the processors of `main_ritika.cc`, which is the one of `main.cc`; its body is the variant `Conditional` of `Counters.Machine.ConfigureCpu`.
- CPUID queries, cache flushing, the kernel module and the FreeBSD variant: foreign instructions without logic to verify.
- Cache hits, misses and prefetching: no code here decides them; only line numbers are computed.
