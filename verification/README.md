# A verified model of the fault injector and its benchmark

The repository holds a Linux kernel module that flips single bits in running programs, a runner that drives it, and the
CoreMark benchmark as a target. This project models three parts of it in Dafny and proves what they promise. `dafny verify
dfyconfig.toml` checks everything.

**The CoreMark kernels.** The linked list is modelled as it is in C: classes for cells and items, relinked and overwritten in
place. The bottom-up merge sort, whose comparators change the items that they compare, is proved stable and correct for
either comparator, and the list benchmark is proved to restore its list exactly when the search phase, and the sort by data if
there is one, keep the order of equal indices; the list builder is proved to give distinct indices, for up to 256 positions,
exactly when its seed spreads them. The checksum is proved against polynomials over the two-element field. The number printer
and parser, the number automaton with its block of text, and the matrix kernels are methods over arrays, proved against
specifications that do not mention them.

**The injection-run protocol.** Client, ioctl calls, monitor, bitflip thread, uprobe handlers, disarm work and target form one
transition system (`InjectionRun`), a program counter for each thread and a step for each access to what they share.
`InjectionSafety` proves what every run keeps, `InjectionFaults` when a run injects a fault and what it reports,
`InjectionFlags` what the shared flags say, `InjectionProgress` that a shutdown always completes, and `InjectionLeftover`
exhibits the two ways in which a flip can stay in a file.

**Algorithms of the injector.** Flipping a register or memory bit and reverting it (`FlipOps`), the two-pass process collector
(`Processes`), rejection sampling (`Sampling`) and placeholder expansion (`Substitution`).

The methods are proved against specification functions. The modules whose names end in `Meaning` say what these functions
compute, without recursion or in terms of single bits and elements.

| files | what they model |
|---|---|
| Crc, CrcTheory | core_util.c, the checksum |
| ListCells, Comparators, RunOrder, Merging, MergeSort | core_list_join.c, list operations and sort |
| SearchPhase, SearchMeaning, Restoration, BenchList, BenchMeaning | core_list_join.c, the list benchmark |
| ListInit, ListMeaning, CoreMain | core_list_join.c and core_main.c, the list builder and the loop of the benchmark |
| NumberText, NumberMeaning, Printer | ee_printf.c `number` and core_util.c `parseval` |
| NumberAutomaton, StateScan, StateBlock, StateMeaning, BlockMeaning | core_state.c |
| Matrix, MatrixMeaning | core_matrix.c |
| InjectionRun, InjectionSafety, InjectionFaults, InjectionFlags, InjectionProgress, InjectionLeftover | monitor.c, bitflip_thread.c, uprobe.c, ioctl.c, bitflip_ops.c, fij_ioctls.cpp |
| FlipOps, FlipMeaning, Selection, Sampling, Processes | bitflip_ops.c, util.c, processes.c |
| Substitution | fij_run.cpp, fij_config.cpp |
| Numbers, BitOps, Options, Signals | shared: machine integers, bitwise operations on numbers, the option type, signals |

## Assumptions of the protocol model

- One client for each file descriptor, following `run_send_and_poll`: SEND, then polling, with at most one kill, and none in a
  run without injection.
- The target stays stopped until `fij_send_cont`; the probe is hit only while the target runs and no SIGKILL is pending.
- A step is one access to the shared context or one call that the kernel makes atomic. The bodies of `uprobe_disarm_workfn`
  and `fij_uprobe_disarm_sync`, once they start, are single steps that wait for running handlers. The revert
  is one step, and so is the attempt to capture a page after a flip in a file. The values of a flip enter the result with the
  flip, before that attempt; nothing reads them until the run is done.
- `kthread_stop` sets the flag, wakes the thread and waits for its exit; a thread that is told to stop before it first runs
  does not call its function.
- `ret` in `bitflip_thread_fn` is read at fij/core/bitflip_thread.c:138 on paths that never assign it; it counts as 0 there.
- Whether calls succeed, what random draws return, how long waits take and what memory holds is left to the environment.
- For the shutdown theorem: whenever monitor, bitflip thread, handlers or disarm work can take a step, one of them takes one
  sooner or later. Nothing is assumed about which.

## Other modelling decisions

- `data16` and `idx` are 16-bit patterns; signed overflow of C is modelled as wrap-around. Checksum registers are sequences of
  sixteen bits, and the methods on machine words are proved against them.
- The state and matrix kernels that `calc_func` calls return arbitrary 16-bit values and do not touch the list.
- `core_list_mergesort` is split into methods for a pass, a merge, and a single take; ghost parameters describe the list.
- `core_list_init` takes its cells and items from two arrays, in place of pointers into one block.
- Random draws, kernel answers and task trees are parameters of the methods in `FlipOps`, `Sampling` and `Processes`.

## Where the code and its documentation differ

- tests/coremark/core_list_join.c:156 promises that the list is back in its original state. That holds if and only if equal
  indices are in order before the last sort, which `Bench` states in terms of what goes in; `SeedSevenNotRestored` is a list that
  the builder makes and one find does not restore, and `ReversalRestoredIff` says which lists stand a reversal.
- fij/core/util.c:168 says that negative weights behave like 0. They are read as unsigned; see `NegativeWeight`.
- fij/core/bitflip_ops.c:190 announces a restore of a file-backed page. The monitor looks for it before it stops the injector,
  so it can be missed; and when the lock is busy or the page cannot be pinned nothing is captured. `UnrevertedIff` says that
  there is no other way, `RevertCanBeMissed` and `CaptureCanFail` show a run for each.
- tests/coremark/core_state.c:98 expects the corruption to be undone when the seeds are equal. Bytes that the first pass turns
  into commas are skipped by the second; see `CorruptTwiceIff`, and `SeedMakesComma` for a seed, a stride and all block sizes
  from 76 on.
- tests/coremark/core_state.c:120 lists its third scientific pattern among the valid numbers. It has no point, so the scanner calls
  it invalid; see `PatternStates`.
- fij/core/bitflip_ops.c:312 lets a process index through that equals the number of processes; see `StopFlipResume`.

## Model

| member | source | states |
|---|---|---|
| Crc.Round | tests/coremark/core_util.c:171-185 | one round of the bit loop is one step of the reflected shift register with taps 0, 13, 15, for every register and bit |
| Crc.Crcu8 | tests/coremark/core_util.c:164-188 | feeding a byte is folding its eight bits, low bit first, into the register |
| Crc.Crcu16 | tests/coremark/core_util.c:189-195 | feeding a word folds its sixteen bits: low byte first |
| Crc.Crcu32 | tests/coremark/core_util.c:196-202 | feeding a double word folds its 32 bits, the lowest first |
| Crc.CrcOfBytes | tests/coremark/core_util.c:164-202 | a chain of byte calls, each of which goes on with the result of the one before, folds the bits of all bytes in order; so the theorems on whole messages hold for it |
| Crc.RegOfInjective | tests/coremark/core_util.c:164-207 | a machine word is determined by its register, so these contracts leave the methods no other result |
| CrcTheory.FoldLinear | tests/coremark/core_util.c:164-188 | the checksum is linear under exclusive or of message and start value jointly, for messages of any length |
| CrcTheory.FoldBijective | tests/coremark/core_util.c:164-188 | for each fixed message the register after is a bijection of the register before; `Unfold` is its inverse in both directions |
| CrcTheory.BurstDetected | tests/coremark/core_util.c:164-207 | two messages of equal length that differ, and only within 16 consecutive bits, never get the same checksum from the same start value |
| CrcTheory.BytesDetected | tests/coremark/core_util.c:164-188 | so the CRCs of two messages of equal length that differ only in two neighbouring bytes, or in one, differ |
| CrcTheory.FoldIsRemainder | tests/coremark/core_util.c:164-188 | the register is the remainder of the message polynomial, with the start value added, modulo x^16 + x^15 + x^2 + 1, coefficient by coefficient |
| CrcTheory.RemainderUnique | tests/coremark/core_util.c:164-188 | no other register is such a remainder, so this characterises the checksum without the shift register |
| CrcTheory.CollisionIffMultiple | tests/coremark/core_util.c:164-188 | two messages collide if and only if their difference is a multiple of the generator polynomial |
| ListCells.Reverse | tests/coremark/core_list_join.c:464-476 | relinking in place turns the list that visits s into one that visits s reversed; acyclic and null-terminated |
| ListCells.Find | tests/coremark/core_list_join.c:434-449 | returns the first cell that matches by index, or by low data byte when no index is given; null exactly if there is none |
| ListCells.Remove | tests/coremark/core_list_join.c:376-389 | the cell takes over the next item and the next cell is unlinked with the removed item; all other links stay |
| ListCells.UndoRemove | tests/coremark/core_list_join.c:407-419 | puts both items and the link back: links are those of the list before the removal |
| Comparators.CalcFunc | tests/coremark/core_list_join.c:69-114 | a cached item and the results are untouched; else the item keeps its high byte and caches the low seven bits of the value with bit 7 set, `crc` is fed the value, and `crcstate` or `crcmatrix` keeps the first value of its kernel; without a kernel the value is the data word |
| Comparators.KernelsAre | tests/coremark/core_list_join.c:72-109 | which words call a kernel: bit 7 clear, and 0 or 1 in the low three bits |
| Comparators.CmpComplex | tests/coremark/core_list_join.c:120-126 | settles both items and orders them by the cached low seven bits; an item that calls no kernel keeps its own; `crc` is fed the value of the first item and then that of the second, each if it was not cached |
| Comparators.CmpIdxRegenerating | tests/coremark/core_list_join.c:133-142 | regenerates the low byte of both items from the high byte and orders them by index |
| Comparators.Compare | tests/coremark/core_list_join.c:120-142 | either comparator settles exactly the two items and returns the difference of their keys; an item that calls no kernel keeps its low seven bits |
| RunOrder.RunEvolves | tests/coremark/core_list_join.c:532-577 | a sorted run stays sorted when items outside it are settled, although settling overwrites data |
| Merging.MergedTake | tests/coremark/core_list_join.c:533-577 | taking the smaller head, the first run on ties, keeps the merged part sorted, stable and settled |
| Merging.MergedAll | tests/coremark/core_list_join.c:533-577 | when both runs are used up, the merged part is one stable run of exactly their cells |
| MergeSort.Append | tests/coremark/core_list_join.c:567-576 | linking one more cell behind the tail keeps the merged list and the links of the cells still to come |
| MergeSort.Take | tests/coremark/core_list_join.c:533-565 | one comparison at most; takes from p on ties, and records which items the comparator has changed |
| MergeSort.SkipRun | tests/coremark/core_list_join.c:519-530 | q is the cell insize places on, or null at the end of the list, and psize the cells passed |
| MergeSort.MergeRuns | tests/coremark/core_list_join.c:533-577 | merging two neighbouring runs yields one stable run of the same cells and at most one comparison for each cell |
| MergeSort.MergePass | tests/coremark/core_list_join.c:509-583 | one pass turns runs of length insize into runs of twice that length, with the stated number of merges and at most n comparisons |
| MergeSort.MergesIsCeiling | tests/coremark/core_list_join.c:509-583 | a pass over n cells makes n / (2 * insize) merges, rounded up |
| MergeSort.PassesIsLog | tests/coremark/core_list_join.c:583-591 | the number of passes is the base-two logarithm of n, rounded up, but at least one |
| MergeSort.Sort | tests/coremark/core_list_join.c:499-595 | on any non-empty acyclic list, with either comparator, terminates with an acyclic null-terminated list of exactly the same cells, stably sorted; at most n comparisons a pass |
| Restoration.StableOrderUnique | tests/coremark/core_list_join.c:499-595 | there is exactly one order that meets the specification of the sort |
| Restoration.CachedAndSorted | tests/coremark/core_list_join.c:69-126 | after the sort by data of two or more cells every item has bit 7 set, its high byte is as it was, and the list is sorted by the low seven bits, whatever the kernels return |
| SearchPhase.Splice | tests/coremark/core_list_join.c:188-195 | moves the cell behind the hit to the second place, in place, and is the same list otherwise |
| SearchPhase.SearchRound | tests/coremark/core_list_join.c:173-202 | one round of finding, reversing and splicing in place does to the list what `Round` does to its order; counters, index and value agree; the next rows say what that is |
| SearchPhase.Search | tests/coremark/core_list_join.c:173-203 | after all rounds the list visits its cells in the order that the phase computes on orders alone; index, counters and value agree |
| SearchMeaning.SearchedIndex | tests/coremark/core_list_join.c:170-198 | the index looked for starts at the given one and grows by one a round until it wraps; a negative one stays |
| SearchMeaning.RoundFinds | tests/coremark/core_list_join.c:173-202 | a round finds if and only if some item of the list has its index, or for a negative index the low byte of its number, wherever the earlier rounds have moved it |
| SearchMeaning.FoundCounts | tests/coremark/core_list_join.c:173-202 | so `found` is the number of such rounds, and `found` and `missed` add up to all |
| SearchMeaning.MissReverses | tests/coremark/core_list_join.c:177-182 | a miss reverses the order and counts bit 8 of the item that is then second |
| SearchMeaning.HitSplices | tests/coremark/core_list_join.c:175-196 | a hit reverses the order, moves the item in front of the hit to the second place, and counts bit 9 of the hit if its bit 0 is set; the place of every cell is given |
| SearchMeaning.ScoreIs | tests/coremark/core_list_join.c:203-203 | four for each find less one for each miss is added, modulo 2^16 |
| Restoration.SortRestoresIff | tests/coremark/core_list_join.c:222-223 | a stable sort by index undoes a rearrangement of an index-sorted list if and only if equal indices were still in order |
| Restoration.ReversalRestoredIff | tests/coremark/core_list_join.c:151-157 | a list that has been reversed is sorted back to its original state exactly when its indices are all different: the promise at line 156 needs that |
| Restoration.IncreasingHasNoTies | tests/coremark/core_list_join.c:222-223 | with strictly increasing indices every rearrangement is undone |
| Restoration.TiesSurvive | tests/coremark/core_list_join.c:173-223 | equal indices are in order before the last sort if and only if the search phase, and for a positive index the stable sort by cached values, has kept the order of each such pair |
| Restoration.SurvivesWithoutKernels | tests/coremark/core_list_join.c:69-126 | when no item calls a kernel, or the index is not positive, this is a condition on the list, the index and the number of finds alone |
| Restoration.ArrangementDetermined | tests/coremark/core_list_join.c:158-223 | and then the arrangement and the data words before the last sort are determined by them |
| Restoration.SortedHead | tests/coremark/core_list_join.c:222-230 | the list that the last sort leaves begins with the first of the items of the least index, in the arrangement |
| BenchList.DataRestored | tests/coremark/core_list_join.c:120-142 | once all items have been compared by index, every data word is what it was at first, whatever has been cached in it |
| BenchList.RemoveAndUndo | tests/coremark/core_list_join.c:207-221 | removing the second item, feeding the list from the found item on, and undoing the removal leaves links and items as they were; the value is the stated number of feeds |
| BenchList.SortBack | tests/coremark/core_list_join.c:222-230 | the last sort: data words are restored always, the order exactly when ties were in order; the checksum is fed the head that is then first |
| BenchList.Bench | tests/coremark/core_list_join.c:158-235 | the benchmark: every item and data word ends up as it was; the links form the original list from `res->list` on if and only if `Survives` holds of the order after the search, of the given data words unless kernels run for a positive index; arrangement and returned checksum are those computed on orders; for an index that is not positive the results are untouched |
| BenchMeaning.ValuedMeans | tests/coremark/core_list_join.c:203-234 | the returned checksum: on top of the value of the search the word at the head is fed as often as cells are left from the found item on, then the word of the head of the restored list for each other cell; with the index and low byte that are looked for |
| BenchMeaning.CellsLeftFound | tests/coremark/core_list_join.c:207-217 | how many cells are left when the item at some place is found, the removed one not counting |
| BenchMeaning.CellsLeftNone | tests/coremark/core_list_join.c:207-217 | and how many when there is none: all behind the head |
| BenchList.BenchTwice | tests/coremark/core_main.c:65-68 | both calls of a round, with index 1 and -1, leave list, items and data as they were, if both restore the list; `res->crc` is what the kernels left, fed with the value of the first call and then with that of the second |
| BenchList.Iterate | tests/coremark/core_main.c:51-73 | if both calls restore the list, every iteration starts from the same list with the same data, and it is the same list at the end; `res->crc` is what the kernels of the last iteration left, fed with the value of its first call and then with that of its second; `res->crclist` is the same for the first iteration |
| BenchList.OneOrderOnly | tests/coremark/core_list_join.c:158-235 | the links of a list determine the order of its cells |
| CoreMain.InitAndIterate | tests/coremark/core_main.c:222-282 | building the list and repeating the benchmark any number of times leaves the very list that was built: the one stable order of the cells and words generated from the seed |
| ListInit.InsertNew | tests/coremark/core_list_join.c:335-360 | takes one cell and one item off their blocks and links it behind the insert point; refuses when one entry is left, and then changes nothing |
| ListInit.InsertAll | tests/coremark/core_list_join.c:266-288 | header, end marker and items: exactly size - 1 cells are linked, the header first and the end marker last, with low byte equal to high byte |
| ListInit.NumberItems | tests/coremark/core_list_join.c:289-305 | numbers the items: in order up to a fifth of the list, pseudo random after that; the end marker keeps 0x7fff |
| ListMeaning.IndexIs | tests/coremark/core_list_join.c:266-305 | header 0, end marker 0x7fff, the first fifth in order, the rest pseudo random below 0x4000 |
| ListMeaning.MixedBits | tests/coremark/core_list_join.c:296-303 | the pseudo random index bit by bit: position exclusive-or seed, with bits 8 to 10 joined with the low bits of the next position |
| ListMeaning.WordsAre | tests/coremark/core_list_join.c:266-288 | the data words before the sort: 0x8080, the items with the last inserted first, 0xffff |
| ListMeaning.ItemBits | tests/coremark/core_list_join.c:279-288 | the word of an item bit by bit: both bytes hold its number modulo 8 and above that the number exclusive-or the seed |
| ListMeaning.EndWords | tests/coremark/core_list_join.c:266-306 | the built list has 0x8080 first and 0xffff last |
| ListMeaning.SizeIs | tests/coremark/core_list_join.c:254-257 | how many entries a block holds |
| ListInit.EndsStay | tests/coremark/core_list_join.c:306-306 | the sort by index keeps header and end marker at their ends, for every seed |
| ListInit.DistinctIffSpread | tests/coremark/core_list_join.c:290-305 | for at most 256 positions all indices are distinct if and only if no pseudo random index falls among those given out in order |
| ListInit.SeedSpreads | tests/coremark/core_list_join.c:290-305 | the seed 0, and every seed with one of the bits 8 to 13 set, spreads the indices |
| ListInit.BlockLayout | tests/coremark/core_list_join.c:254-260 | cells from the start of the block and items of four bytes behind them do not overlap, and all lie inside its bytes, if a cell takes sixteen bytes at most |
| ListInit.SeedSevenNotRestored | tests/coremark/core_list_join.c:151-157 | the list built with seed 7 in 666 bytes is not restored after one find with index -1: the promise at line 156 fails |
| ListInit.Init | tests/coremark/core_list_join.c:250-319 | builds a sorted list of size - 1 distinct cells and items of the blocks, header first, end marker last, backups intact; cells, indices and data words come in the one stable order of those generated; up to 256 positions it is strictly sorted if and only if the seed spreads |
| NumberText.EvalDigits | tests/coremark/barebones/ee_printf.c:96-107 | the digits of a number, in any base from 2, evaluate to it |
| NumberText.TextLength | tests/coremark/barebones/ee_printf.c:52-140 | the field is as wide as asked for, or as wide as sign, prefix and the larger of precision and digits need |
| NumberText.BodyValue | tests/coremark/barebones/ee_printf.c:109-139 | with any padding, precision and flags the printed digits evaluate to the magnitude |
| NumberMeaning.TextIs | tests/coremark/barebones/ee_printf.c:52-140 | the whole field, part by part: blanks, sign, prefix, zeros, digits, blanks, for every width, precision and flag |
| NumberMeaning.DigitsCanonical | tests/coremark/barebones/ee_printf.c:96-107 | digits have no leading zero |
| NumberMeaning.SignIs | tests/coremark/barebones/ee_printf.c:66-86 | which sign is printed, and that a negative number that is not printed as signed is read as 64 unsigned bits |
| NumberMeaning.PrefixIs | tests/coremark/barebones/ee_printf.c:88-127 | the prefix of each base |
| Printer.FillDigits | tests/coremark/barebones/ee_printf.c:96-107 | the digit loop leaves the digits in reverse order and never needs more than 64 places |
| Printer.Header | tests/coremark/barebones/ee_printf.c:66-94 | sign, magnitude and remaining width for every flag combination, also for the most negative number |
| Printer.Layout | tests/coremark/barebones/ee_printf.c:109-139 | the padding and copying loops write exactly the laid-out field and nothing else of the buffer |
| Printer.Number | tests/coremark/barebones/ee_printf.c:52-140 | for bases 2 to 36 writes exactly the text of the number from str on and returns its end; for other bases returns null and writes nothing |
| Printer.ParseVal | tests/coremark/core_util.c:70-118 | reads sign, prefix, digits and suffix with 32-bit wrap-around, as `Parse` says; the next rows say what that is |
| NumberMeaning.ParseIs | tests/coremark/core_util.c:70-118 | sign times digits times suffix, K for 1024 and M for 1024 * 1024, wrapped to 32 bits, for a text that is cut into these parts |
| NumberMeaning.CutExists | tests/coremark/core_util.c:70-118 | and every text is |
| NumberText.RoundTrip | tests/coremark/core_util.c:70-118 | parsing what was printed in decimal, or in prefixed lower-case hexadecimal, gives the number back |
| NumberText.RoundTripIff | tests/coremark/core_util.c:70-118 | this holds if and only if the text starts with neither blank nor plus, or the number is zero |
| NumberAutomaton.Classifies | tests/coremark/core_state.c:216-330 | after any word the automaton is in a state if and only if the word is in the regular language of that state; so it is invalid exactly when in none |
| StateScan.TokenClassified | tests/coremark/core_state.c:216-330 | the token that a call consumes classifies the state that it returns, and INVALID is returned exactly at the first byte that leaves all languages |
| StateScan.TokenShape | tests/coremark/core_state.c:216-330 | a token ends at a comma, at the end, or at its first invalid byte, and no earlier |
| StateScan.CountsBalance | tests/coremark/core_state.c:216-330 | how the transition counters move along a token, for every start state |
| StateMeaning.CountIs | tests/coremark/core_state.c:216-330 | which bytes are counted, and for which state |
| StateMeaning.CountAllIs | tests/coremark/core_state.c:216-330 | over a token each counter grows by the number of such bytes in it |
| StateMeaning.Alphabet | tests/coremark/core_state.c:197-330 | the characters that the scanner tells apart |
| StateScan.Transition | tests/coremark/core_state.c:216-330 | one call consumes one token and its comma, always at least one byte, and counts its transitions |
| StateScan.ScanAll | tests/coremark/core_state.c:66-75 | repeated calls tile the text up to its first zero; final counts are the tally of the token states and the counter balance holds |
| StateMeaning.FirstToken | tests/coremark/core_state.c:66-96 | the tokens of a text one by one, with their states and transition counts: a comma, the end, or the first invalid byte ends a token |
| StateMeaning.TallyIs | tests/coremark/core_state.c:66-75 | the final counters count the tokens that end in each state |
| StateBlock.FlipTwice | tests/coremark/core_state.c:77-103 | flipping a byte twice with the same mask gives it back if and only if it was a comma or did not become one |
| StateBlock.CorruptTwiceIff | tests/coremark/core_state.c:77-103 | two passes with the same mask restore the block if and only if the first turned no visited byte into a comma |
| StateBlock.SeedMakesComma | tests/coremark/core_state.c:77-103 | with both seeds 25 and stride 0x22, the least that an item asks for, the byte at position 68 becomes a comma in every block of 76 bytes or more, so the promise at line 98 fails |
| StateBlock.ZeroMask | tests/coremark/core_state.c:77-103 | the empty mask turns nothing into a comma |
| StateBlock.Corrupt | tests/coremark/core_state.c:77-83 | one strided pass flips exactly the visited bytes that are no commas |
| StateBlock.StillHasZero | tests/coremark/core_state.c:77-96 | a stride of two or more hits at most one of the two trailing zeros, so the second scan stops inside the block |
| StateBlock.InitState | tests/coremark/core_state.c:139-195 | fills the block with patterns, commas and trailing zeros, as `InitialBlock` says |
| StateBlock.InitialBlockTerminated | tests/coremark/core_state.c:139-195 | a block of two or more bytes ends with two zeros, for every seed |
| BlockMeaning.BlockIs | tests/coremark/core_state.c:139-195 | a block is the patterns after its seed, each with its comma, as many as leave room for the final zero, and then zeros |
| BlockMeaning.IntPatterns | tests/coremark/core_state.c:113-184 | the integers, by seed |
| BlockMeaning.FloatPatterns | tests/coremark/core_state.c:113-184 | the decimals |
| BlockMeaning.SciPatterns | tests/coremark/core_state.c:113-184 | the scientific numbers |
| BlockMeaning.ErrPatterns | tests/coremark/core_state.c:113-184 | the faulty ones |
| BlockMeaning.PatternStates | tests/coremark/core_state.c:113-127 | what the scanner makes of each: all as their names say, except that the third scientific number, which has no point, is invalid |
| StateBlock.BenchState | tests/coremark/core_state.c:45-111 | both scans stay inside the block; with equal low seed bytes the block is restored if and only if the mask made no comma; the checksum is that over both scans; `ChecksumIs` says which bits |
| StateMeaning.ChecksumIs | tests/coremark/core_state.c:66-110 | the checksum is the fold of sixteen counters, for each state its final count and then its transitions, over the text of the block and that of the corrupted block |
| BlockMeaning.CorruptedAt | tests/coremark/core_state.c:77-83 | bit by bit: the mask is added to every byte at a multiple of the step that is no comma |
| BlockMeaning.MaskIs | tests/coremark/core_state.c:77-103 | the mask is the low byte of the seed |
| StateBlock.StrideOf | tests/coremark/core_list_join.c:82-96 | the stride that an item asks for is at least 0x22, so at least 2 |
| BlockMeaning.StrideIs | tests/coremark/core_list_join.c:81-96 | it is bits 3 to 6 of the word, in both halves of a byte, but at least 0x22 |
| Matrix.AddedBack | tests/coremark/core_matrix.c:129-162 | adding a constant and its negation with 16-bit wrap-around gives every matrix back, for every constant |
| Matrix.AddConst | tests/coremark/core_matrix.c:284-295 | adds the constant to every element, wrapped to 16 bits, and to nothing else |
| Matrix.MulConst | tests/coremark/core_matrix.c:268-279 | every result is the exact product, which always fits |
| Matrix.MulVect | tests/coremark/core_matrix.c:302-314 | result i is the dot product of row i with the vector, wrapped to 32 bits; the other results stay |
| Matrix.MulMatrix | tests/coremark/core_matrix.c:321-336 | every result is the dot product of its row and column, wrapped to 32 bits |
| Matrix.MulMatrixBitextract | tests/coremark/core_matrix.c:343-359 | every result is the sum over its row and column of the products of the two extracted bit fields |
| MatrixMeaning.BitExtractAt | tests/coremark/core_matrix.c:49-49 | bit k of an extracted field is bit from + k of the number |
| MatrixMeaning.MixedIs | tests/coremark/core_matrix.c:343-359 | bits 2 to 5 of the product times bits 5 to 11 of it |
| MatrixMeaning.EntrySums | tests/coremark/core_matrix.c:321-359 | entry by entry: the combined elements of row and column, added up and wrapped |
| MatrixMeaning.VectSums | tests/coremark/core_matrix.c:302-314 | the same for the vector |
| Matrix.Sum | tests/coremark/core_matrix.c:237-262 | the row-by-row loop computes the fold over the matrix as one sequence; the next rows say what the fold is |
| MatrixMeaning.SummedCounts | tests/coremark/core_matrix.c:237-262 | the elements are cut into segments, each ended by the element with which its wrapped sum exceeds the bound; the sum is ten for each ended segment and one for each rise among the other elements, wrapped to 16 bits |
| MatrixMeaning.AllExceed | tests/coremark/core_matrix.c:237-262 | so it is ten for each element when every element exceeds the bound by itself |
| MatrixMeaning.BoundIs | tests/coremark/core_matrix.c:48-48 | the bound: the low twelve bits of the constant below four set bits, a negative number |
| Matrix.Test | tests/coremark/core_matrix.c:129-162 | both input matrices are element for element as they were, for every content and constant; the checksum is that of the four results; `TestCrcIs` says in which order |
| MatrixMeaning.TestCrcIs | tests/coremark/core_matrix.c:129-162 | the checksum is the fold of the four sums in the order constant, vector, matrix, bit fields, taken with the raised matrix |
| Matrix.PartialSumsFit | tests/coremark/core_matrix.c:302-336 | for dimensions up to 128, elements and constant in 0 to 255, no partial sum leaves 32 bits |
| Matrix.ExactProducts | tests/coremark/core_matrix.c:302-336 | and then all vector and matrix products are the exact dot products |
| Matrix.Dimension | tests/coremark/core_matrix.c:191-196 | the loop stops and finds the dimension N with 8 N^2 < blksize <= 8 (N + 1)^2, up to the block size from which the 32-bit count wraps |
| Matrix.DimensionIff | tests/coremark/core_matrix.c:191-196 | for all block sizes of 32 bits: the loop stops with that dimension if and only if blksize <= 8 * 23170^2; in larger blocks it passes the right one by |
| Matrix.NeverStops | tests/coremark/core_matrix.c:191-196 | for the seven largest block sizes it never stops |
| Matrix.DimUnique | tests/coremark/core_matrix.c:191-196 | there is only one such dimension |
| Matrix.Fill | tests/coremark/core_matrix.c:200-213 | the second matrix holds the seed sequence with 16-bit wrap-around, the first the low byte of that plus the number of the element |
| Matrix.SecondIs | tests/coremark/core_matrix.c:200-213 | each element of the second matrix in closed form: seed times factorial plus a sum that does not depend on the seed, modulo 2^16 |
| Matrix.SeedFades | tests/coremark/core_matrix.c:200-213 | from the eighteenth element on the seed is zero, whatever it was: the rest of both matrices does not depend on it |
| InjectionSafety.StepKeeps | fij/core/monitor.c:17-143 | every step of every thread keeps the invariant of the run |
| InjectionSafety.RunInv | fij/iface/ioctl.c:37-238 | the invariant holds in every state of every run from a fresh context, under every interleaving |
| InjectionSafety.CompletionBarrier | fij/iface/ioctl.c:147-165 | when RECEIVE has returned 0, the run was sent, `target_alive` and `running` are cleared, the bitflip thread has exited or was never started, the probe is gone, and what was received is the final result |
| InjectionSafety.ExitCodeFinal | fij/core/monitor.c:27-41 | the exit code is the target's own, unless it counts as hanged: then it is SIGKILL, and only after a kill |
| InjectionSafety.DoneIsFinal | fij/core/monitor.c:80-84 | after completion no step of any thread changes the result, flips a bit, or sends a signal |
| InjectionSafety.ResultFrozen | fij/core/monitor.c:80-84 | so the result is the same in all later states of the run |
| InjectionSafety.AtMostOneFlip | fij/core/bitflip_ops.c:290-360 | without injection nothing is flipped; in single-thread mode at most one bit, however often the probe is hit; `FaultIff` says when it is one |
| InjectionFaults.FaultIff | fij/core/bitflip_ops.c:290-360 | a completed run with a single thread reports a fault, and has flipped one bit, if and only if no test or call on the way to the flip was refused, by the history of the answers; if all was granted, all of it was asked, in its order |
| InjectionFaults.WaitFailed | fij/core/bitflip_ops.c:340-353 | when the wait for the stopped task fails, the run never flips a bit nor reports a fault |
| InjectionFaults.DeadTargetIsLeftAlone | fij/core/bitflip_thread.c:83-139 | nor when the target is no longer alive at the moment of the test |
| InjectionFaults.GroupFlips | fij/core/bitflip_ops.c:234-277 | in all-threads mode a stopped group is gone through thread by thread: any register flips can be made, one for each thread |
| InjectionFaults.NothingBeforeHit | fij/core/bitflip_thread.c:72-90 | in a run with a trigger nothing is flipped before the probe has been hit |
| InjectionFaults.ArmedUntilHit | fij/core/uprobe.c:114-162 | from the success of SEND on the probe is armed until it is hit or the monitor disarms it |
| InjectionFaults.HitTriggers | fij/core/uprobe.c:96-111 | a running target can hit an armed probe, and the handler sets the trigger |
| InjectionFaults.HitWakes | fij/core/bitflip_thread.c:76-81 | after a hit a waiting thread is awake, and each of its steps brings it closer to leaving the queue |
| InjectionFaults.KillReturns | fij/iface/ioctl.c:197-234 | when KILL has returned, the bitflip thread has exited or was never started, and the target has exited or counts as hanged |
| InjectionFlags.FlagsMean | fij/core/monitor.c:50-83 | from the success of SEND on `target_alive` is set if and only if no kill has been noted and the monitor has not cleared it, and `running` if and only if the monitor has not ended the run |
| InjectionFlags.FailureFrees | fij/iface/ioctl.c:112-121 | when SEND has failed `running` is cleared |
| InjectionFlags.LateKill | fij/iface/ioctl.c:197-206 | after completion a kill sends no signal and stops no thread |
| InjectionFlags.TriggerSpent | fij/core/bitflip_thread.c:89-95 | after the injection the trigger is unset until the probe is hit again |
| InjectionFlags.OneShot | fij/core/uprobe.c:107-170 | once a handler has ended the probe is gone or its disarm work is queued |
| InjectionFlags.DisarmAfterWork | fij/core/uprobe.c:172-176 | the monitor disarms the probe only after it has found no disarm work pending |
| InjectionFaults.ChosenIsReported | fij/core/bitflip_ops.c:309-321 | the process that is chosen is the one in the result from then on |
| InjectionFaults.FlipIsReported | fij/core/bitflip_ops.c:342-353 | and so are the values before and after the flip |
| InjectionFaults.TimeIsReported | fij/core/bitflip_thread.c:145-147 | and the time of the injection |
| InjectionSafety.FaultReported | fij/core/bitflip_ops.c:351-353 | the received result reports a fault if and only if one bit was flipped, and before and after differ in exactly one bit |
| InjectionSafety.StopsContinued | fij/core/bitflip_ops.c:333-359 | outside its critical section the injector has sent no signal, or one stop and one continue to the same group |
| InjectionSafety.UnrevertedIff | fij/core/bitflip_ops.c:163-193 | when the run is done, a flip is still in a file if and only if the capture of its page failed, or came after the monitor's revert; never both |
| InjectionLeftover.RevertCanBeMissed | fij/core/monitor.c:46-58 | there is a run that completes with a flip in a file whose page was captured after the revert |
| InjectionLeftover.CaptureCanFail | fij/core/bitflip_ops.c:168-193 | and one that completes with a flip in a file whose page was never captured |
| InjectionProgress.NeverLeftAsleep | fij/core/bitflip_thread.c:145-155 | while the monitor waits for it, the bitflip thread can always take a step: the park loop and the trigger wait never lose the wake-up |
| InjectionProgress.StopComesCloser | fij/core/bitflip_thread.c:72-155 | once the stop flag is set every step of the bitflip thread lowers a measure, from every location, and no other step raises it |
| InjectionProgress.InternalComesCloser | fij/core/monitor.c:46-91 | once the target is gone or the monitor told to stop, every step of monitor, bitflip thread, handlers and disarm work leaves less to do |
| InjectionProgress.EnvironmentAddsNothing | fij/core/uprobe.c:96-111 | and client, target and hits add nothing |
| InjectionProgress.NoDeadlock | fij/core/monitor.c:173-207 | until the run is done some kernel thread can step, also while it waits for a task to stop |
| InjectionProgress.ShutdownCompletes | fij/core/bitflip_thread.c:172-188 | so in every endless run in which the kernel is not starved the run completes, with its threads gone and its result there to be received |
| FlipOps.Context.FlipRegister | fij/core/bitflip_ops.c:38-73 | flips exactly the chosen bit of the chosen register and reports both values; with an unknown register or bit nothing changes |
| FlipOps.Context.FlipMemory | fij/core/bitflip_ops.c:75-213 | flips one bit of one byte inside a usable mapping, captures it if the mapping is file-backed and the page could be pinned, or returns the error of the first check that fails and changes nothing |
| FlipOps.ChosenInside | fij/core/bitflip_ops.c:109-148 | the mapping and address that the draws select are usable and mapped |
| FlipOps.Context.RevertFileBacked | fij/core/bitflip_ops.c:379-404 | writes the captured byte back if there is one, and forgets it |
| FlipOps.NoTraceIff | fij/core/bitflip_ops.c:379-404 | after flip, writes of the target and revert the bytes are as without the injection if and only if the page was captured and the target left the byte alone or last wrote its old value, or it was not captured and the target has written over it |
| FlipOps.Context.FlipRunRevert | fij/core/bitflip_ops.c:75-213 | the same for the calls themselves, with the error and the capture as `FlipMemory` decides them: a failed flip leaves no trace, and nothing is left to revert |
| FlipOps.Context.FlipForTask | fij/core/bitflip_ops.c:362-377 | flips a register if one is asked for or the draws select one, the one and the bit that are asked for or drawn, and memory otherwise; the error is given by the inputs; on an error nothing changes |
| FlipOps.Context.StopFlipResume | fij/core/bitflip_ops.c:290-360 | the return value from the inputs: error of the collection, no process or thread, error of the stop, of the wait, of the flip; on 0 exactly the register bit or memory bit that is asked for or drawn has changed and is reported, on any other value nothing; the group is stopped and continued exactly if it gets that far; process and thread number are those chosen |
| FlipOps.Context.ChooseTarget | fij/core/bitflip_ops.c:296-331 | the process and thread that are chosen, and the error if there is none |
| FlipMeaning.ProcessIs | fij/core/bitflip_ops.c:309-321 | the requested process, the drawn one without a number or for one out of range, and what lies behind the buffer for an index equal to the count |
| FlipMeaning.ThreadIs | fij/core/bitflip_ops.c:326-331 | when there is a thread to inject into, and its number: the one asked for, or the drawn one without a number or for one below 1 |
| FlipMeaning.RegisterErrorIs | fij/core/bitflip_ops.c:39-57 | a register flip fails if and only if there are no registers, or a register or bit is asked for that does not exist |
| FlipMeaning.MemoryErrorIs | fij/core/bitflip_ops.c:75-213 | a memory flip succeeds if and only if nothing fails, and the first thing that does decides the error |
| FlipMeaning.EveryAddress | fij/core/bitflip_ops.c:109-148 | every address of every usable mapping is chosen by some draws |
| FlipMeaning.AddressRepeats | fij/core/bitflip_ops.c:109-148 | offsets repeat with the size of the mapping |
| FlipOps.Context.PickRandomThread | fij/core/util.c:68-102 | the thread that the draw selects among the eligible ones, and its index; none exactly if there are none |
| FlipOps.Context.PickThreadByIndex | fij/core/util.c:104-145 | the eligible thread with that number; a random one for numbers below 1, none for numbers too high |
| Selection.Walk | fij/core/util.c:87-98 | the second walk stops at the eligible element with the given number |
| Selection.Count | fij/core/util.c:78-82 | the first walk counts the eligible elements |
| Selection.EligiblePlaces | fij/core/util.c:78-98 | the eligible elements are exactly those that satisfy the test, in their order |
| FlipMeaning.ThreadsAre | fij/core/util.c:68-102 | only threads with an address space that are no kernel threads can be chosen, and all of them can |
| BitOps.XorMask | fij/core/bitflip_ops.c:59-62 | an exclusive or with a shifted one is the inversion of that bit, within the width |
| BitOps.FlipBitAt | fij/core/bitflip_ops.c:59-62 | and exactly that bit differs |
| BitOps.XorAt | fij/core/bitflip_ops.c:59-62 | exclusive or, bit by bit |
| Processes.CountDescendants | fij/core/processes.c:9-26 | counts the live user descendants: the length of their preorder |
| Processes.CollectPreorder | fij/core/processes.c:28-52 | writes the first min(max, total) tgids of the preorder from `out` on, and nothing else of the buffer |
| Processes.CollectedIffReached | fij/core/processes.c:9-52 | a tgid is in the preorder if and only if it is reached through live user tasks only |
| Processes.PreorderAt | fij/core/processes.c:9-52 | the order: each live user child, and its descendants right behind it |
| Processes.Context.CollectDescendants | fij/core/processes.c:54-112 | root and full preorder if the tree has not grown between the walks, a prefix that fits the capacity for every change in between; capacity never shrinks, and errors change nothing |
| Sampling.ChooseRegisterTarget | fij/core/util.c:160-186 | never a register when only memory is allowed, always one for weight 0, else the first draw below the limit decides, by its residue; no draw is used when the choice is certain |
| Sampling.Unbiased | fij/core/util.c:172-185 | all residue classes of accepted draws have the same size, limit / total |
| Sampling.RegisterProbability | fij/core/util.c:160-186 | exactly one accepted draw in `total` selects a register, and the total is 1 + weight for every weight that is not negative |
| Sampling.HalfAccepted | fij/core/util.c:172-185 | at least 2^31 of the 2^32 draws are accepted, whatever the total |
| Sampling.CertainOnlyAtZero | fij/core/util.c:160-186 | a register is certain if and only if the weight is 0 |
| Sampling.LimitIs | fij/core/util.c:178-184 | the limit is the greatest multiple of the total that does not exceed 2^32 - 1 |
| Sampling.NegativeWeight | fij/core/util.c:168-172 | for a negative weight just one of the 2^32 draws selects a register, although the comment in the source says that it behaves like 0 |
| Substitution.Find | fij_runner/fij_run.cpp:145-147 | the first occurrence at or after the position, or none |
| Substitution.ReplaceAll | fij_runner/fij_run.cpp:139-156 | find, replace, advance computes the leftmost non-overlapping substitution and terminates even if the replacement contains the placeholder |
| Substitution.SubstJoins | fij_runner/fij_run.cpp:139-156 | on a text cut at its leftmost placeholders the substitution joins the pieces with the replacement |
| Substitution.CutExists | fij_runner/fij_run.cpp:139-156 | and every text can be cut in that way |
| Substitution.NoneLeft | fij_runner/fij_run.cpp:139-156 | a clean replacement leaves no placeholder in any text: it does not contain one, is not strictly inside one, and shares no end with the opposite end of one |
| Substitution.CleanIff | fij_runner/fij_run.cpp:139-156 | for a placeholder that cannot overlap itself this is exact: no text keeps one if and only if the replacement is clean |
| Substitution.ForeignIsClean | fij_runner/fij_run.cpp:139-156 | a replacement without the first and last character of the placeholder, but with a character that is not in it, is clean |
| Substitution.CleanBasePath | fij_runner/fij_config.cpp:19-26 | so no text keeps `{base_path}` if and only if the base path is clean |
| Substitution.BasePathCanRemain | fij_runner/fij_config.cpp:19-26 | the base path `a` turns `{b{base_path}se_path}` into a new placeholder |
| Substitution.ExpandArgs | fij_runner/fij_run.cpp:252-269 | first the campaign, then the run number; no `{run}` is left, whatever template and campaign |
| Substitution.RunTextIs | fij_runner/fij_run.cpp:252-269 | the run number is written in decimal |
| Substitution.ExpandBasePath | fij_runner/fij_config.cpp:19-26 | paths and arguments are expanded exactly if a base path is given, and then keep no `{base_path}` if it is clean |

## Left out

- InjectionRun: does not model the blocking EXEC_AND_FAULT call, closing the descriptor during a run, a second run on the same
  descriptor, `inject_workfn` (never queued), freezing, and fatal signals to the kernel threads.
- InjectionRun: the reference counts and lifetimes of kernel objects are not modelled, nor is the memory of a task after it exits.
- InjectionSafety.AtMostOneFlip: says nothing about the number of flips in all-threads mode, in which the code sets no `fault_injected`.
- InjectionSafety.FaultReported: the one bit is one of 64, also for a memory flip, where it is one of 8; FlipOps.Context.FlipForTask
  says that.
- InjectionSafety.UnrevertedIff: a byte counts as flipped until the module writes it back; FlipOps.NoTraceIff says what writes of the
  target change about that. Whether a private mapping has been copied on write is not modelled.
- FlipOps.Context.StopFlipResume: the all-threads branch is not part of it; `InjectionRun` models its steps.
- FlipOps.Context.FlipMemory: the address space does not change between choosing the address and writing to it.
- Sampling.ChooseRegisterTarget: the unbounded loop is a loop over a given sequence of draws, and `None` means that it goes on.
- Processes.Context.CollectDescendants: allocation is a flag; a tree that changes during one walk is not modelled, one that
  changes between the walks is.
- Comparators.CalcFunc: the values of the kernels are arbitrary; state and matrix kernels are modelled on their own.
- BenchList.BenchTwice: requires that both calls restore the list. Otherwise `res->list` is no longer its head, and the second
  call works on what is behind it.
- BenchList.Iterate: requires the same; what the kernels leave in `res->crc`, on top of which both values of a round are fed, is
  arbitrary.
- ListInit.Init: pointer comparison within the memory block is replaced by array bounds, and alignment is left out; `BlockLayout`
  relates the two.
- Matrix.Dimension: requires a block size for which `8 * i * i` does not wrap around; `DimensionIff` covers the others. An empty
  block, for which the dimension wraps around to 2^32 - 1, is excluded.
- Printer.Number: the varargs dispatch of `ee_vsprintf`, floating-point and address formats, and `skip_atoi` are left out.
- Substitution.ReplaceAll: strings are sequences of characters; merging of configuration maps, files and parallel loops are left out.
- The delay arithmetic of `bitflip_thread_fn`, argument splitting of the ioctl layer, exec_helper.c, chardev.c, signal.c and the
  register tables are operating-system plumbing without properties of this kind.
- campaign_analyzer.cpp, fij_core.cpp and the statistics of the runner are file input and output and floating point.
- fij/core/bitflip.c is an older copy that is not part of the module.
