# Proofs about the CoreMark port, the printf, the predictors and the matrix kernels

This project models the self-contained algorithms of the repository in Dafny and proves what they are for. Code that
changes things step by step is modelled by methods over classes and arrays, each proved against functions; the
properties of those functions are lemmas. `dafny verify dfyconfig.toml` checks everything.

| files | models |
|---|---|
| `ListTypes`, `ListSort`, `ListBench`, `ListInit` | CoreMark's linked list: comparisons that rewrite their payloads, the bottom-up merge sort, the list benchmark, and how the list is built and iterated over |
| `Crc` | CoreMark's bit-serial CRC, as steps of a linear shift register |
| `Numerals`, `StateBench` | the numeral recogniser with its grammar and counters, its input block, and the corruption that is applied and undone |
| `MatrixTest` | CoreMark's matrix kernel and its checksum |
| `PrintfText`, `PrintfLaws`, `PrintfGrammar`, `PrintfMeaning`, `Printf` | the embedded printf: what a format prints, the laws of that, how conversions are written, what each prints for its argument, and the interpreter with its buffer |
| `BranchHistory`, `Gshare`, `Yags` | the gshare predictor with a table and with an unlimited one, and YAGS |
| `Matrices`, `BarrierMatMul` | the barrier-synchronised matrix product, as interleaved statements of its cores |
| `Tiles`, `CkMatMul`, `AkMatMul`, `BhMatMul`, `Interleaving` | three blocked matrix kernels, and what becomes of cores that run them at the same time |
| `Disasm` | Capstone's `cs_disasm` and `cs_disasm_iter` |
| `Framing` | the packets of the controller |
| `RingBuffer` | the simulator's fixed-size buffer |
| `Words`, `Bits`, `Fold`, `Strides` | bytes and optional values, bitwise operations on numbers, left folds, loops with a stride |

How the models read:

- The list is a chain of `Node` objects. A ghost sequence `s` lists the cells; `Chain(list, s)` says that the `next`
  pointers link exactly them, ending in null. A *view* maps cells to the values of their payloads. A comparator may be
  `cmp_idx`, `cmp_complex`, any ordering by a key, or (`Arbitrary`) any function at all that may also rewrite payloads.
  A `Stage` of a sort is the view and the set of the cells that comparisons have been made of; only `CompareCells` adds
  to that set.
- `core_bench_state` and `core_bench_matrix`, as `calc_func` calls them, return arbitrary values. The parameter
  `garbage` of `BenchList` is the uninitialised field `info.data16`.
- `p.lda`, `A`, `B` and the old `C` of a kernel are in a `Problem` (or a `Config`), with the arithmetic of `data_t`. Nothing
  is assumed of that arithmetic, so wrap-around and rounding are covered; only `BhMatMul`, which adds the terms in
  another order, needs addition to be commutative and associative. `Flat(lda, r, c)` is the position `r*lda + c`.
- An entry of C that a kernel has marked `Foreign` can be neither loaded nor stored; `OneCore` runs a kernel with all rows
  of the other cores foreign. `Interleaving` composes such cores: a core there is a program whose next access follows from
  the values it has read and written.
- In `BarrierMatMul` a schedule is a sequence of cores. A core that is picked takes one statement; a core in front of a
  barrier that others have not reached does nothing. The buffer and C hold anything at first.
- In the printf model, text that has been written is a ghost string; the cursor `idx` is that string's length modulo
  2^32. Integers, `long`, pointers and `size_t` have 32 bits and `char` is unsigned, as in the RISC-V ilp32 ABI.
- A `Spec` is a conversion as written, stars included; `Printed` are the parts of a number's text. `IsSet(x, i)` is bit i of x.
- The predictors are proved against functions of the trace of updates. In YAGS, `side` is the choice: the cache beside a
  taken choice is `cache_nt`, the other `cache_t`.
- `requires P(x) == true` is `requires P(x)`: written so, a predicate is passed on as a whole instead of conjunct by
  conjunct, which keeps the proofs of the heap methods small.

Where the code and its comments disagree, or a property holds only under a condition:

- `core_list_mergesort`: the comment on `nmerges` allows for the empty list, but `tail` is null at the end of a pass exactly
  then (`TailOfPass`), and the code writes through it; the list must not be empty.
- `core_bench_list` says that it leaves the list as it found it. As to the next pointers it does so in every run exactly if
  the indices increase strictly; otherwise the run with one search, for the index 0, changes them. As to the data words it
  does so exactly if the two bytes of each agree.
- `core_list_init` says that the mixed indices end up behind those in sequence. With a size of 31 and the seed 6 the
  index 1 is given twice; in a list of up to 256 cells all indices differ exactly if what it says is true.
- The alternative form of a number loses digits that are not padding when they fill the width: `%#4x` prints 0x1234 as 0x34.
- The comment on `core_list_find` says that an index other than 0 is searched for; the code takes any index from 0 on.
- Of the patterns that `core_init_state` uses as scientific numbers, `-87e+832` is invalid for the recogniser.
- The limit that `matrix_test` gives to `matrix_sum` is negative for every constant, so each entry that leaves the sum at zero or
  above is a clip.
- `core_bench_state` says that equal seeds undo the corruption; they do so exactly if no byte turns into a comma. Its second
  scan ends inside the block exactly if some byte is NUL after the corruption; on a fresh block one always is.
- `snprintf_` does what section 7.19.6.5 of ISO/IEC 9899:1999 asks exactly if the text's length is an `int`. Zeros stop at 32
  characters, and may then displace the minus sign; a 64-bit number in base 2 loses the digits above 32.
- The receive loop of the controller stops for good at a length of 0 or of 2^31 and more.
- `fixed_size_buffer` counts rightly up to a size of 2^31 and not beyond.
- `cs_disasm` passes the whole buffer and a position to a skipdata callback, `cs_disasm_iter` the rest and 0. The two give the
  same records exactly if the callback answers the same at the positions on the way where decoding fails (`Agreed`).

## Model

| member | source | states |
|---|---|---|
| ListSort.MergeSort | testcase_src/coremark/cmark.c:790-860 | the result is one NULL-terminated chain of exactly the same cells with their payload objects, for any comparator; of two cells or more each takes part in a comparison, for any comparator; by a key the result is sorted and stable; payloads change only as comparing may change them, and bear the mark of a comparison |
| ListSort.Pass | testcase_src/coremark/cmark.c:797-844 | one pass turns runs of insize cells into sorted runs of twice that size, counts its merges, and leaves the payload pointers alone |
| ListSort.Merge | testcase_src/coremark/cmark.c:818-839 | merging two adjacent runs gives one run: cells of both and no others, in order of key and, for equal keys, of first place |
| ListSort.MergingDone | testcase_src/coremark/cmark.c:818-839 | what the merge loop keeps, once both runs are empty, is a sorted stable run, and a comparison has been made of each of its cells if it has two or more |
| ListSort.MergingCompared | testcase_src/coremark/cmark.c:826-833 | after a comparison of the two fronts no cell of either run is left uncompared, for any comparator |
| ListSort.TailOfPass | testcase_src/coremark/cmark.c:848 | at the end of a pass tail is null exactly if the list was empty |
| ListSort.MergingLeft | testcase_src/coremark/cmark.c:826-829 | taking from the left run when its head is not greater keeps the order and stability of the merge |
| ListSort.MergingRight | testcase_src/coremark/cmark.c:830-833 | taking from the right run when its head is smaller keeps the order and stability of the merge |
| ListSort.RunsJoin | testcase_src/coremark/cmark.c:803-848 | runs built behind one another from left to right stay ranked, so stability survives the whole pass |
| ListSort.RunIsSorted | testcase_src/coremark/cmark.c:849-856 | the single run left by the last pass is a stable sorting of the list that came in |
| ListTypes.CalcFunc | testcase_src/coremark/cmark.c:427-459 | a cached word gives its low seven bits and changes nothing; any other is settled, with its backup byte kept, from one result that also feeds the running checksum and, if still zero, the checksum of its kind |
| ListTypes.Compare | testcase_src/coremark/cmark.c:465-482 | the sign of the result orders the two keys; each payload ends settled; by index without results both data words are refilled from their backup byte |
| ListTypes.CacheValue | testcase_src/coremark/cmark.c:456 | the cached word keeps the backup byte and shows the mark and the seven bits |
| ListTypes.RegenerateSettles | testcase_src/coremark/cmark.c:478 | refilling twice is refilling once and keeps the backup byte |
| ListTypes.DataWordBits | testcase_src/coremark/cmark.c:427-480 | bit by bit: bit 7 is the mark, bits 0 to 6 the cached value, and refilling copies bits 8 to 15 to bits 0 to 7 |
| ListTypes.CacheBits | testcase_src/coremark/cmark.c:456 | bit by bit: caching puts the value into bits 0 to 6, sets bit 7 and keeps the others |
| ListBench.Find | testcase_src/coremark/cmark.c:734-744 | the first cell whose index (or low data byte) matches, or null exactly if none does; nothing changes |
| ListBench.Reverse | testcase_src/coremark/cmark.c:759-768 | the chain ends reversed, cell by cell, with the payload pointers unchanged |
| ListBench.ReversedSame | testcase_src/coremark/cmark.c:759-768 | reversal keeps the cells and their number |
| ListBench.MoveUp | testcase_src/coremark/cmark.c:521-526 | the cell after the found one goes behind the head; every other cell keeps its relative place |
| ListBench.MovedUpSame | testcase_src/coremark/cmark.c:521-526 | moving a cell to the front keeps the cells and their number |
| ListBench.FirstMatchIs | testcase_src/coremark/cmark.c:734-744 | the position is that of a match with no match before it |
| ListBench.FindRound | testcase_src/coremark/cmark.c:508-533 | a round of search, reversal, scoring and move-to-front rearranges the cells and loses none; RoundScores, PlacedAfter and RoundsCount say what it computes |
| ListBench.FindStep | testcase_src/coremark/cmark.c:508-533 | the code of a round leaves the chain, the sought item and the score as the round has them and the payloads as they were, and counts the search once, as found or as missed |
| ListBench.FindLoop | testcase_src/coremark/cmark.c:508-533 | find_num rounds leave the list, the sought item and the counters as the fold of the rounds, and as RoundsCount counts them |
| ListBench.RoundScores | testcase_src/coremark/cmark.c:508-533 | one round: found or missed goes up by one; a point is scored exactly if the cell found has bits 0 and 9 set, or none is found and the cell behind the new head has bit 8 set; the next item is sought |
| ListBench.PlacedAfter | testcase_src/coremark/cmark.c:511-527 | where each cell ends after one round: places are turned around, but for the cell before the match, which comes second, and those between it and the end, which make room |
| ListBench.RoundsCount | testcase_src/coremark/cmark.c:506-533 | after n rounds the index sought is the first one plus n, wrapped around once at 2^15, or the first one if that is negative; the byte sought is n - 1 modulo 2^8; the counters are the numbers of rounds that found, missed and scored, modulo 2^16 |
| ListBench.BenchChecksum | testcase_src/coremark/cmark.c:508-563 | the checksum in closed form: from the score, points + 4 * hits - misses modulo 2^16, over the head's word once for each cell from the sought one on (from the second one on if there is none), and over the last head's word once for each cell but the first |
| ListBench.Remove | testcase_src/coremark/cmark.c:680-691 | the second cell's payload leaves the list and its cell stays, carrying the payload of the next one |
| ListBench.RemoveAndUndo | testcase_src/coremark/cmark.c:538-550 | removing the second item, checksumming and undoing puts every next and info pointer back |
| ListBench.UndoRemove | testcase_src/coremark/cmark.c:709-719 | the removed cell is linked back behind the item and the two payload pointers change places again |
| ListBench.SortedUnique | testcase_src/coremark/cmark.c:552 | given the order before the sort there is only one order by index that keeps cells with equal indices in place |
| ListBench.OneRoundTells | testcase_src/coremark/cmark.c:508-552 | after one search for the index 0 the last sort brings the list back only if its indices increase strictly |
| ListBench.RegeneratedAfterSorts | testcase_src/coremark/cmark.c:536-552 | after both sorts every data word is its backup byte twice, whatever the comparisons by data did to it |
| ListBench.RegeneratedSame | testcase_src/coremark/cmark.c:476-482 | the regenerated data are the original ones exactly if the bytes of each word agree |
| ListBench.BenchDone | testcase_src/coremark/cmark.c:496-563 | data regenerated; the original order exactly if cells with equal indices are in it before the last sort, hence for increasing indices |
| ListBench.BenchList | testcase_src/coremark/cmark.c:496-563 | payload objects back in their cells, data regenerated, cells in order of index, and the checksum as the one of the three steps, for every list of three cells or more |
| ListBench.BenchListRestores | testcase_src/coremark/cmark.c:488-563 | the documented claim and its exact condition: every info and idx is what it was, every data word exactly if the bytes of each agree, and every next in all runs exactly if the indices increase strictly, the run with one search for the index 0 telling |
| ListInit.InsertNew | testcase_src/coremark/cmark.c:646-665 | a new cell with its own payload object behind the insertion point, or null and no change exactly if a block is used up |
| ListInit.IndexCells | testcase_src/coremark/cmark.c:607-618 | every cell but head and tail gets its index, and nothing else changes |
| ListInit.Init | testcase_src/coremark/cmark.c:577-630 | size - 1 new cells with the given payloads, in order of index; the order is strict exactly if no index is given twice |
| ListInit.IndexTwice | testcase_src/coremark/cmark.c:610-618 | with a size of 31 and the seed 6 the cells 1 and 7 both get the index 1 |
| ListInit.DataBits | testcase_src/coremark/cmark.c:602-604 | bit by bit: in both bytes of a data word bits 0 to 2 are those of i, bits 3 to 6 the lowest four of the seed exclusive-ored with those of i, bit 7 is zero |
| ListInit.IndexBits | testcase_src/coremark/cmark.c:613-616 | bit by bit: a mixed index is k exclusive-ored with the seed, joined with the three low bits of k + 1 at bit 8, cut to 14 bits |
| ListInit.DistinctIff | testcase_src/coremark/cmark.c:610-618 | in a list of up to 256 cells the indices are distinct exactly if no mixed one falls among those of the first fifth |
| ListInit.ValidationSeed | testcase_src/coremark/cmark.c:610-618 | the seed 0 gives distinct indices in every list of up to 256 cells |
| ListInit.Iterate | testcase_src/coremark/cmark.c:898-916 | any number of iterations leaves a list with strictly increasing indices and agreeing bytes as it was, pointers and payloads |
| ListInit.InitAndIterate | testcase_src/coremark/cmark.c:577-916 | so it does a list just built, if no index was given twice |
| Crc.Crcu8 | testcase_src/coremark/cmark.c:1974-1996 | eight steps of the reflected shift register on the bits of the byte, lowest first |
| Crc.Crcu16 | testcase_src/coremark/cmark.c:1998-2002 | the register after the sixteen bits of the word, lowest first |
| Crc.Crcu32 | testcase_src/coremark/cmark.c:2003-2007 | the register after the 32 bits of the word, lowest first |
| Crc.StepInjective | testcase_src/coremark/cmark.c:1978-1994 | a step loses nothing: different registers stay different |
| Crc.FeedInjective | testcase_src/coremark/cmark.c:1974-1996 | messages bring two different registers never together |
| Crc.StepLinear | testcase_src/coremark/cmark.c:1978-1994 | a step is linear over exclusive or |
| Crc.FeedLinear | testcase_src/coremark/cmark.c:1974-1996 | the checksum of the exclusive or of two messages is that of the checksums |
| Crc.CollisionIsZeroDifference | testcase_src/coremark/cmark.c:1974-1996 | two messages collide exactly if their difference has checksum zero from zero |
| Crc.BurstDetected | testcase_src/coremark/cmark.c:1974-1996 | byte strings that differ only within 16 consecutive bits never have the same checksum, from any start value |
| Crc.SeventeenBitBurstMissed | testcase_src/coremark/cmark.c:1974-1996 | 16 is the best possible: in every byte string, at every place, some of 17 consecutive bits can be flipped unnoticed |
| Crc.FeedOwnBits | testcase_src/coremark/cmark.c:1974-1996 | a register fed its own bits ends at zero |
| Crc.OddErrorsDetected | testcase_src/coremark/cmark.c:1974-1996 | messages that differ in an odd number of bits never have the same checksum |
| Numerals.Decides | testcase_src/coremark/cmark.c:1739-1832 | all eight states: the automaton ends in a state exactly if the text has the shape that the state stands for ([+-]?D+, [+-]?D*.D*, such a float with [eE][+-]D+, their unfinished beginnings, or none of these) |
| Numerals.Sound | testcase_src/coremark/cmark.c:1739-1832 | a text that is not rejected has the shape of the state it reaches |
| Numerals.Complete | testcase_src/coremark/cmark.c:1739-1832 | every text of a shape reaches the state of that shape |
| Numerals.InvalidStays | testcase_src/coremark/cmark.c:1742-1743 | a rejected beginning is never redeemed by what follows |
| StateBench.Transition | testcase_src/coremark/cmark.c:1739-1832 | the state is that of the token up to the comma or NUL; a valid token is left just behind its comma, an invalid one behind its first offending character; a non-empty rest is always shortened and the first NUL never passed; the counters go on as for the text read |
| StateBench.CountsDepartures | testcase_src/coremark/cmark.c:1743-1829 | a token adds one to the counter of each state that it leaves and none to the others, but for the two states below |
| StateBench.CountsRejections | testcase_src/coremark/cmark.c:1758-1826 | the counter of the scientific state never moves, that of the invalid one exactly for tokens rejected at once or from the scientific state |
| StateBench.Scan | testcase_src/coremark/cmark.c:1613-1616 | the scan of a block ends exactly at its first NUL; the counter of each state goes up by the number of tokens that end in it, and its step counter by the number that leave it (see the two lemmas above), modulo 2^32 |
| StateBench.NextPlaceIs | testcase_src/coremark/cmark.c:1739-1832 | the token at p runs to the first NUL or comma; a valid one is read whole and reading goes on behind its comma; a rejected one is read up to the first character that rejects it, and reading goes on right there |
| StateBench.CountedIs | testcase_src/coremark/cmark.c:1613-1637 | for every state: its final counter is the old value plus the number of tokens that end in it, its step counter plus the number that track it, modulo 2^32 |
| StateBench.BenchResultIs | testcase_src/coremark/cmark.c:1609-1656 | the checksum in closed form: over the 32-bit counts of the tokens of both scans, for each state in the order of the enumeration first how many end in it and then how many track it |
| StateBench.InitState | testcase_src/coremark/cmark.c:1671-1721 | the block is as many whole patterns, each with its comma, as fit, and zeros after them, at least two from size 2 on; nothing behind the block is written |
| StateBench.FreshBlockScans | testcase_src/coremark/cmark.c:1671-1721 | the first NUL of a fresh block is inside it, right after the last pattern |
| StateBench.PatternIs | testcase_src/coremark/cmark.c:1657-1708 | bits 0 to 2 of the seed choose the kind of a pattern and bits 3 and 4 one of four; each is what its kind says for the recogniser, but -87e+832, listed as scientific, is invalid |
| StateBench.PatternAt | testcase_src/coremark/cmark.c:1676-1708 | pattern i of a block is that of the seed plus i + 1, modulo 2^16, behind those before it |
| StateBench.Corrupt | testcase_src/coremark/cmark.c:1627-1632 | exactly the bytes at multiples of the step, commas apart, are exclusive-ored with the seed |
| StateBench.CorruptedAt | testcase_src/coremark/cmark.c:1627-1632 | place by place: changed exactly if visited and not a comma |
| StateBench.StillStops | testcase_src/coremark/cmark.c:1627-1640 | the corrupted block holds a NUL exactly if a visited byte other than a comma equals the seed or a NUL is not visited |
| Strides.VisitedIs | testcase_src/coremark/cmark.c:1627-1632 | the places visited are those at multiples of the stride |
| StateBench.TwoNulsKeepOne | testcase_src/coremark/cmark.c:1627-1632 | of two neighbouring NULs one is left by every stride from 2 on |
| StateBench.InitAndBench | testcase_src/coremark/cmark.c:1598-1721 | on a fresh block both scans end inside the block, for every stride from 2 on |
| StateBench.Bench | testcase_src/coremark/cmark.c:1598-1657 | the memory after both scans and both corruptions, and the checksum over the counters of both scans, which BenchResultIs gives in closed form |
| StateBench.RestoredIff | testcase_src/coremark/cmark.c:1642-1647 | the block is restored exactly if nothing was changed, or the seeds agree and no byte turned into a comma on the way |
| MatrixTest.Test | testcase_src/coremark/cmark.c:1364-1395 | A and B are unchanged for every dimension and every constant, -32768 included; C holds the bit-field product of A plus the constant and B; the checksum is that of A plus the constant, B and the constant (TestCrcIs) and does not depend on what C held |
| MatrixTest.Repeated | testcase_src/coremark/cmark.c:1364-1395 | every further call gives the same checksum and the same matrices |
| MatrixTest.MatrixSum | testcase_src/coremark/cmark.c:1463-1481 | the score of the entries in the order of rows, with accumulator and score wrapping around |
| MatrixTest.SumUpIs | testcase_src/coremark/cmark.c:1463-1481 | the score is 10 times the number of clips plus the number of rises, in 16 bits: an entry clips if the 32-bit sum since the last clip exceeds the limit, and rises if it does not clip and is larger than the entry before |
| MatrixTest.BigBits | testcase_src/coremark/cmark.c:1293 | the limit is negative, between -4096 and -1: its four highest bits are set, the others are those of the constant |
| MatrixTest.TestCrcIs | testcase_src/coremark/cmark.c:1364-1395 | the checksum is that of four 16-bit scores: of the entries times the constant, those with the product by the vector in front, the product by B, and the product of bit fields |
| MatrixTest.WrapsAre | testcase_src/coremark/cmark.c:1499-1555 | wrapping around changes a number by a multiple of 2^16, or 2^32, into the range |
| MatrixTest.DotIs | testcase_src/coremark/cmark.c:1526-1538 | an entry of the product is the sum of A[i,k] * B[k,j] over all k, wrapped around once |
| MatrixTest.FieldDotIs | testcase_src/coremark/cmark.c:1543-1555 | with bit fields it is the sum of the products of bit fields |
| MatrixTest.BitFieldsAre | testcase_src/coremark/cmark.c:1294 | bit by bit: a product of bit fields is bits 2 to 5 of the 32-bit product times bits 5 to 11 of it |
| MatrixTest.RowSumIs | testcase_src/coremark/cmark.c:1512-1520 | an entry of the product by the vector is the sum of A[i,k] * B[k] over all k, wrapped around once |
| MatrixTest.RowsAre | testcase_src/coremark/cmark.c:1526-1555 | scalar products at all places are the rows of products one after the other |
| MatrixTest.AddedAndTaken | testcase_src/coremark/cmark.c:1368-1393 | adding a 16-bit constant and then its negation restores every 16-bit matrix |
| MatrixTest.AddConst | testcase_src/coremark/cmark.c:1499-1506 | every entry has the constant added modulo 2^16, nothing else changes |
| MatrixTest.MulMatrix | testcase_src/coremark/cmark.c:1526-1555 | every entry of C is the scalar product of its row and column, for plain products and for products of bit fields |
| MatrixTest.MulConst | testcase_src/coremark/cmark.c:1487-1494 | every entry of C is the 32-bit product |
| MatrixTest.MulVect | testcase_src/coremark/cmark.c:1512-1520 | the first N entries of C are the products of the rows of A with the vector |
| Printf.Vsnprintf | testcase_src/coremark/printf.c:604-884 | for every format whose conversions are finished and have their arguments: the value returned is that of the rendered text whatever the buffer, and the buffer is the text written through the limited cursor and a NUL |
| Printf.Snprintf | testcase_src/coremark/printf.c:910-917 | the length is returned exactly if it is an int; then the buffer is the first min(length, count-1) characters, a NUL, and otherwise as before; count 0 and a null buffer write nothing |
| Printf.Out | testcase_src/coremark/printf.c:160-172 | a character is stored only below the limit, and counted always |
| Printf.OutRev | testcase_src/coremark/printf.c:226-250 | the scratch buffer comes out backwards, justified in the width, also when the index wraps around |
| Printf.NtoaFormat | testcase_src/coremark/printf.c:254-304 | zeros, prefix and sign are put behind the digits within 32 places and printed justified |
| Printf.Ntoa | testcase_src/coremark/printf.c:308-352 | the printed text is that of the number in its base, flags, precision and width |
| Printf.Digits | testcase_src/coremark/printf.c:319-325 | the scratch buffer holds the digits, the last first, as many as fit |
| Printf.Atoi | testcase_src/coremark/printf.c:215-222 | the decimal number modulo 2^32 and the place after its last digit |
| Printf.ReadField | testcase_src/coremark/printf.c:628-707 | flags, width, precision and length are read as the grammar says, with arguments for the stars |
| Printf.Convert | testcase_src/coremark/printf.c:709-876 | one specifier prints its text and uses its argument; the percent sign and unknown specifiers print themselves; PrintfMeaning says what each text is |
| Printf.Strnlen | testcase_src/coremark/printf.c:198-203 | the length of the string, or the limit if that is smaller |
| PrintfGrammar.ReadsField | testcase_src/coremark/printf.c:628-707 | wherever it stands in a format, a conversion written with any flags, a width, a precision and a length is read as exactly those; a star takes its value from the next argument, a negative width standing for the flag - as well, a negative precision for zero |
| PrintfGrammar.FlagsByPresence | testcase_src/coremark/printf.c:628-639 | the order and the repetition of flags do not matter |
| PrintfMeaning.SignedArgument | testcase_src/coremark/printf.c:748-764 | the value of %d and %i is the two's complement number of the 64, 32 or 16 bits that the length names, and for hh the low 8 bits, unsigned |
| PrintfMeaning.UnsignedArgument | testcase_src/coremark/printf.c:766-780 | the value of the other integer conversions is the argument modulo 2^64, 2^32, 2^16 or 2^8 by the length |
| PrintfMeaning.IntegerPrinted | testcase_src/coremark/printf.c:711-783 | an integer is printed as spaces, sign and prefix, digits of the radix of its specifier, and spaces: the digits show its magnitude exactly if it is less than the radix to the power of their number; the sign is that of the value, a prefix stands for # unless the value is zero, both as far as 32 places allow; spaces fill the width on one side unless zeros do |
| PrintfMeaning.WholeNumber | testcase_src/coremark/printf.c:711-783 | without a prefix the digits read back to the magnitude, in base 16 for x and X, 8 for o, 2 for b and 10 otherwise, exactly unless a binary number needs more than 32 places |
| PrintfMeaning.SignStands | testcase_src/coremark/printf.c:748-764 | before the digits of %d and %i stands the sign, - exactly if the value is negative, or nothing, exactly if zeros have taken its place |
| PrintfMeaning.DigitsShown | testcase_src/coremark/printf.c:254-267 | how many digits are shown without a prefix: those of the number, none for zero with a precision, and unless set to the left zeros up to the precision and up to the padded width; 32 at most |
| PrintfMeaning.CharPrinted | testcase_src/coremark/printf.c:803-821 | %c prints the low byte of its argument, with spaces up to the width on one side |
| PrintfMeaning.StringPrinted | testcase_src/coremark/printf.c:823-847 | %s prints the string, or its first precision characters if it is longer, with spaces up to the width on one side |
| PrintfMeaning.PointerPrinted | testcase_src/coremark/printf.c:849-865 | %p prints the address in upper-case digits of base 16, padded with zeros or set to the left in a width of 8 |
| PrintfMeaning.WholeAddress | testcase_src/coremark/printf.c:849-865 | without a prefix they read back to the address, and without any flag or precision they are eight |
| PrintfMeaning.FormatPrints | testcase_src/coremark/printf.c:614-884 | a format of any pieces, text without percent signs and conversions with their arguments, prints the texts of its pieces one after the other, each from its own arguments |
| PrintfLaws.TruncatesRightly | testcase_src/coremark/printf.c:160-165 | the outcome is the one that section 7.19.6.5 of ISO/IEC 9899:1999 asks for exactly if the length of the text is an int |
| PrintfLaws.Written | testcase_src/coremark/printf.c:160-165 | each place below the limit shows the last character written to it, places wrapping modulo 2^32 |
| PrintfLaws.HugeWidth | testcase_src/coremark/printf.c:803-821 | a width of 2^31-1 and one more character make the returned value negative |
| PrintfLaws.WidthIsKept | testcase_src/coremark/printf.c:254-304 | a number is at least as long as its width exactly if the width is at most 32, or it is padded with spaces |
| PrintfLaws.DigitsShowValue | testcase_src/coremark/printf.c:319-325 | the digits read back to the number exactly if it is less than the base to the power of the places |
| PrintfLaws.WordsFit | testcase_src/coremark/printf.c:308-325 | every 32-bit number reads back, in all four bases |
| PrintfLaws.Division | testcase_src/coremark/printf.c:321-323 | the case-wise quotient and remainder are those of division by the base |
| PrintfLaws.NumberParts | testcase_src/coremark/printf.c:254-352 | in every base, with every flag, width and precision, a number is printed as spaces, sign and prefix, digits of the base, spaces; the digits show the value exactly if there are enough of them; sign and prefix are cut only by the end of the 32 places |
| PrintfLaws.WordParts | testcase_src/coremark/printf.c:254-352 | every 32-bit number without a prefix reads back, padded or not, in all four bases |
| PrintfLaws.PlainShows | testcase_src/coremark/printf.c:254-325 | without a prefix the printed digits show the value exactly if it is less than the base to the power of 32 |
| PrintfLaws.MarkedShows | testcase_src/coremark/printf.c:269-289 | with a prefix they do so exactly if, besides, its digits do not fill the width exactly, nor, in base 16, with a single zero in front |
| PrintfLaws.PrefixEatsDigits | testcase_src/coremark/printf.c:269-289 | %#4x prints 0x1234 as 0x34 |
| PrintfLaws.SignRoom | testcase_src/coremark/printf.c:256-301 | a sign finds room exactly if the value is less than the base to the power of 31 and no more than 31 places are filled with zeros |
| PrintfLaws.LongsFit | testcase_src/coremark/printf.c:331-352 | 64-bit numbers fit the 32 places in every base but 2 |
| PrintfLaws.ReadsBack | testcase_src/coremark/printf.c:215-304 | behind its spaces and sign a decimal number reads back by _atoi to its value, whatever flags, width and precision; its minus sign is there exactly if the zeros leave room for it |
| PrintfLaws.NumberReads | testcase_src/coremark/printf.c:215-222 | _atoi reads a run of digits to its end |
| BranchHistory.HistoryEncodes | model/branch_predictor_algorithm_model/gshare.py:31 | the history register is the binary code of the last w outcomes and nothing else, and less than 2^w |
| BranchHistory.CodeInjective | model/branch_predictor_algorithm_model/gshare.py:31 | equal codes of equal length are equal outcomes |
| BranchHistory.KeysTellContexts | model/branch_predictor_algorithm_model/gshare_with_infinite_pht.py:15 | two lookups share a key exactly if address and last outcomes agree |
| BranchHistory.IndexInRange | model/branch_predictor_algorithm_model/gshare.py:17-20 | with a history no wider than the address every index is inside the table |
| BranchHistory.IndexBit | model/branch_predictor_algorithm_model/gshare.py:17-20 | bit i of the index is bit i + 2 of the address exclusive-ored with the outcome of the branch before the last i |
| BranchHistory.SameAddress | model/branch_predictor_algorithm_model/gshare.py:17-20 | at one address two lookups share an entry exactly if their recent outcomes agree |
| BranchHistory.SameHistory | model/branch_predictor_algorithm_model/gshare.py:17-20 | after one history two addresses share an entry exactly if they agree in the bits 2 to pcWidth + 1 |
| BranchHistory.RunMoves | model/branch_predictor_algorithm_model/gshare.py:26-29 | n outcomes of one kind move a counter n steps their way, within 0 and 3; it starts at 0 |
| Gshare.InfiniteGshare.Get | model/branch_predictor_algorithm_model/gshare_with_infinite_pht.py:13-16 | the prediction is that of a saturating counter over exactly the past outcomes of the same address after the same recent outcomes |
| Gshare.InfiniteGshare.Update | model/branch_predictor_algorithm_model/gshare_with_infinite_pht.py:18-27 | dictionary and history stay determined by the trace with one more branch |
| Gshare.PredictsContext | model/branch_predictor_algorithm_model/gshare_with_infinite_pht.py:13-27 | the unlimited predictor in closed form: the counter of the outcomes of the context, and of no other |
| Gshare.CounterCounts | model/branch_predictor_algorithm_model/gshare_with_infinite_pht.py:18-27 | on a deterministic trace a counter is at least one (two) exactly if its context was taken at least once (twice) |
| Gshare.MispredictionsCounted | model/branch_predictor_algorithm_model/gshare_with_infinite_pht.py:13-27 | on a deterministic trace the mispredictions are exactly the first and the second time a context is taken |
| Gshare.TwoPerContext | model/branch_predictor_algorithm_model/gshare_with_infinite_pht.py:13-27 | at most two mispredictions for each distinct context, however long the trace |
| Gshare.TableGshare.Get | model/branch_predictor_algorithm_model/gshare.py:17-20 | the prediction is that of a saturating counter over exactly the past outcomes whose index agrees with this lookup's in every bit, address bits exclusive-ored with outcomes, and the index is in range |
| Gshare.TableGshare.Update | model/branch_predictor_algorithm_model/gshare.py:22-31 | table and history stay determined by the trace with one more branch |
| Gshare.PredictsEntry | model/branch_predictor_algorithm_model/gshare.py:17-31 | the table predictor in closed form: the counter of the outcomes of all branches that share the entry, told by their bits |
| Gshare.SameCounter | model/branch_predictor_algorithm_model/gshare.py:22-31 | without aliasing a table entry has followed the unlimited counter of its context all along |
| Gshare.Simulates | model/branch_predictor_algorithm_model/gshare.py:17-31 | without aliasing the table predictor and the unlimited one agree at every step of every trace |
| Gshare.AliasingMisleads | model/branch_predictor_algorithm_model/gshare.py:17-20 | with one entry for all they disagree on a branch that differs from the one taken twice |
| Yags.Predictor.Get | model/branch_predictor_algorithm_model/yags.py:24-38 | the prediction is that of the entry in the cache beside the choice, if it is the branch's own, and else the choice |
| Yags.Predictor.Update | model/branch_predictor_algorithm_model/yags.py:40-94 | both caches, the choice table and the history stay determined by the trace with one more update |
| Yags.Predictor.UpdateCaches | model/branch_predictor_algorithm_model/yags.py:41-87 | only the cache beside the choice changes, and only at its slot |
| Yags.EntryLaw | model/branch_predictor_algorithm_model/yags.py:54-87 | a valid entry has a latest allocation: an outcome the choice did not foresee, in a slot of another tag, not taken over since; its counter is the saturating fold, from 3 (from 0 beside a taken choice), of all outcomes of its slot and tag from then on while the choice was on that side |
| Yags.ValidIfClaimed | model/branch_predictor_algorithm_model/yags.py:54-87 | an entry is valid exactly if some update could have allocated it |
| Yags.OneEntryChanges | model/branch_predictor_algorithm_model/yags.py:54-87 | an update changes at most one entry of one cache |
| Yags.ChoiceStays | model/branch_predictor_algorithm_model/yags.py:89-93 | if hit is true of the prediction from the same state, the choice counter stays exactly if it was wrong and the cache was right |
| Yags.AddressBits | model/branch_predictor_algorithm_model/yags.py:25-30 | bit by bit: the slot is the address exclusive-ored with the last outcomes, the choice slot and the tag are the low bits of the word address |
| Yags.Predicts | model/branch_predictor_algorithm_model/yags.py:24-94 | in closed form: a branch to whose tag an update has given the slot is predicted by the counter of its outcomes since then; any other as the choice has it |
| Yags.StaysWithTag | model/branch_predictor_algorithm_model/yags.py:54-87 | as long as no update takes it away, the slot keeps the tag it was given to and counts its outcomes |
| Yags.ChoiceFollows | model/branch_predictor_algorithm_model/yags.py:89-93 | as long as no prediction hits, a choice counter follows all outcomes of its slot, from 0 |
| BarrierMatMul.StepFootprint | testcase_src/riscv-tests/mt/ae_matmul.c:38-106 | a statement writes one of the two shared arrays at most, and there one entry in the rows of its core |
| BarrierMatMul.OtherRowsStay | testcase_src/riscv-tests/mt/ae_matmul.c:38-106 | the rows of the other cores stay as they are in both arrays |
| BarrierMatMul.StepMovesOne | testcase_src/riscv-tests/mt/ae_matmul.c:38-106 | no other core moves, and a barrier is counted exactly when the core comes to one |
| BarrierMatMul.StepKeeps | testcase_src/riscv-tests/mt/ae_matmul.c:38-106 | every statement of every core keeps the invariant: no core past a barrier that another has not reached, written parts of the buffer transposed, stored entries products, running sums initial parts of the products |
| BarrierMatMul.AllTransposed | testcase_src/riscv-tests/mt/ae_matmul.c:38-44 | a core past the transposition sees the whole buffer transposed, whoever wrote it |
| BarrierMatMul.RunSchedule | testcase_src/riscv-tests/mt/ae_matmul.c:38-108 | the invariant holds after any schedule of the cores |
| BarrierMatMul.ReadsAreTransposed | testcase_src/riscv-tests/mt/ae_matmul.c:54-98 | every buffer read of the product phase of any run sees the transposed B |
| BarrierMatMul.NoDeadlock | testcase_src/riscv-tests/mt/ae_matmul.c:38-106 | in every reachable state some core that has not returned can move |
| BarrierMatMul.StuckMeansDone | testcase_src/riscv-tests/mt/ae_matmul.c:38-108 | when no core can move all have returned, after the same number of barriers, and C is A*B, for any arithmetic of the entries |
| BarrierMatMul.EveryRunEnds | testcase_src/riscv-tests/mt/ae_matmul.c:38-108 | no run is longer than the cores times the statements of one core, and it has that length exactly when all have returned |
| BarrierMatMul.Config.SharesDivide | testcase_src/riscv-tests/mt/ae_matmul.c:40 | in a valid configuration ncores divides lda and a share is lda/ncores rows |
| BarrierMatMul.TermAdded | testcase_src/riscv-tests/mt/ae_matmul.c:65-98 | one multiplication adds the next term to one of the four sums and leaves the others |
| Strides.OneOwner | testcase_src/riscv-tests/mt/ak_matmul.c:16 | every block of rows is on the way of exactly one core |
| Tiles.Store | testcase_src/riscv-tests/mt/ak_matmul.c:43-50 | storing an entry changes that entry only, so tiles do not disturb each other |
| Tiles.MineIs | testcase_src/riscv-tests/mt/ak_matmul.c:16 | row r is worked on by the core r / 16 modulo ncores |
| Tiles.AllDealt | testcase_src/riscv-tests/mt/ak_matmul.c:14-60 | once every core has been called, every entry is that of C + A*B |
| CkMatMul.Rotate | testcase_src/riscv-tests/mt/ck_matmul.c:20-59 | the loop that goes round from the core's own column block ends, having done every block exactly once |
| CkMatMul.OneMoreBlock | testcase_src/riscv-tests/mt/ck_matmul.c:20 | on the way round each turn adds exactly the block at ii to the columns done |
| CkMatMul.MatMul | testcase_src/riscv-tests/mt/ck_matmul.c:14-60 | a core completes its own blocks of rows of C + A*B and leaves all others as they were |
| CkMatMul.OneCore | testcase_src/riscv-tests/mt/ck_matmul.c:14-60 | from any C, a core adds to each entry of its rows its scalar product and leaves all others, reading and writing no entry of a foreign row |
| CkMatMul.AllCores | testcase_src/riscv-tests/mt/ck_matmul.c:14-60 | one call for each core, in any order, leaves C + A*B, for any arithmetic of the entries |
| AkMatMul.MatMul | testcase_src/riscv-tests/mt/ak_matmul.c:14-60 | a core completes its own blocks of rows of C + A*B and leaves all others as they were |
| AkMatMul.OneCore | testcase_src/riscv-tests/mt/ak_matmul.c:14-60 | from any C, a core adds to each entry of its rows its scalar product and leaves all others, reading and writing no entry of a foreign row |
| AkMatMul.AllCores | testcase_src/riscv-tests/mt/ak_matmul.c:14-60 | one call for each core, in any order, leaves C + A*B, for any arithmetic of the entries |
| BhMatMul.AddedBelow | testcase_src/riscv-tests/mt/bh_matmul.c:70-81 | with a commutative and associative addition the terms may be added from the top |
| BhMatMul.HalfIs | testcase_src/riscv-tests/mt/bh_matmul.c:34 | the start of the half-pass in B is the row it names |
| BhMatMul.Upwards | testcase_src/riscv-tests/mt/bh_matmul.c:20-57 | two half-passes upwards complete the upper half of the rows |
| BhMatMul.Downwards | testcase_src/riscv-tests/mt/bh_matmul.c:58-95 | two half-passes downwards complete the lower half of the rows |
| BhMatMul.MatMul | testcase_src/riscv-tests/mt/bh_matmul.c:14-96 | core 0 completes the upper half, core 1 the lower, a single core both, others nothing |
| BhMatMul.OneCore | testcase_src/riscv-tests/mt/bh_matmul.c:14-96 | from any C, a core adds to each entry of its half its scalar product and leaves all others, reading and writing no entry of a foreign row |
| BhMatMul.AllCores | testcase_src/riscv-tests/mt/bh_matmul.c:14-96 | one call for each core, in any order, leaves C + A*B |
| Interleaving.AsIfAlone | testcase_src/riscv-tests/mt/ck_matmul.c:14-60 | cores that touch only entries of their own read and leave there, in every interleaving of their accesses, what they read and leave when alone |
| Interleaving.Together | testcase_src/riscv-tests/mt/ck_matmul.c:14-60 | if each core alone ends with its own entries of C + A*B, every interleaving in which all can finish ends with C + A*B |
| Disasm.Handle.DisasmIter | model/components/capstone/cs.c:1071-1163 | on success one record, the first of what Lists says, and code and address move past it; on failure, exactly if nothing can be decoded and nothing may be skipped, nothing moves |
| Disasm.Handle.IterateAll | model/components/capstone/cs.c:1071-1163 | calling the iterator until it fails, at most n times, yields the reference records, which are listed as IteratedLists says |
| Disasm.Handle.DisasmNext | model/components/capstone/cs.c:872-962 | the next record, as AtShows describes it, goes into the free slot, which is inside the array, and into no other |
| Disasm.Handle.AtShows | model/components/capstone/cs.c:890-957 | the next record has the given address, and the size and content that the decoder gives for the rest of the code; where it fails, the bytes skipped, as many as the callback answers or the default; there is none exactly if neither is possible |
| Disasm.Handle.Disasm | model/components/capstone/cs.c:820-1027 | the records are those of the sweep over the code, listed as SweepLists says, as many as asked for (0 means all), in an array of exactly that many slots, none for no record; no write is outside the array; for every callback |
| Disasm.Handle.SweepLists | model/components/capstone/cs.c:863-1027 | record by record: record i starts, in the code and in the addresses, where the sizes of those before it add up to; it is what AtShows says, the callback being asked about its place in the whole code; with less than n records nothing can follow |
| Disasm.Handle.IteratedLists | model/components/capstone/cs.c:1071-1163 | so it is with the records of the iterator, the callback being asked about the start of the rest |
| Disasm.Handle.MakeRoom | model/components/capstone/cs.c:967-997 | after a record there is a free slot, in a larger array if the cache is full, unless there can be no further record |
| Disasm.SmallIsRoomy | model/components/capstone/cs.c:969 | below 2^29 records the growth of the cache never wraps around to nothing |
| Disasm.Handle.SweepIsIterated | model/components/capstone/cs.c:820-1163 | disassembling all at once and one at a time give the same records exactly if the callback answers the same for a position and for the start of the rest wherever decoding fails on the way |
| Disasm.CallbacksMayDisagree | model/components/capstone/cs.c:927-936 | with a callback that looks at the position they differ |
| Disasm.Handle.Grow | model/components/capstone/cs.c:967-994 | the grown array has room for c records and the new cache, and keeps the records |
| Disasm.Handle.Trim | model/components/capstone/cs.c:999-1022 | exactly c slots are left |
| Disasm.Handle.AtRest | model/components/capstone/cs.c:927-936 | both functions see the same next record at a position exactly if the callback, where decoding fails, answers the same |
| Disasm.Handle.Contiguous | model/components/capstone/cs.c:995-997 | in both functions each address is that of the record before it plus its size, modulo 2^64 |
| Framing.Sender.SendCommand | model/controller/Global.cs:57-88 | a command goes out exactly if connected and, while the simulation runs, a pause or forced; then exactly its frame is appended to the stream, which stays the frames of the payloads sent, and a refused command writes nothing |
| Framing.LengthReadsBack | model/controller/Global.cs:82 | the length read back as an int is the payload length exactly below 2^31 |
| Framing.LowestFirst | model/controller/Global.cs:82 | four bytes are the length whose lowest byte comes first, in both directions |
| Framing.RoundTrip | model/controller/Global.cs:82-83 | the packets in a framed list are the payloads before the first that is empty or 2^31 bytes or longer, hence all of them if there is none |
| Framing.CutStream | model/controller/Global.cs:195-224 | a cut stream yields the first payloads |
| Framing.MoreBytes | model/controller/Global.cs:195-224 | packets found so far do not depend on what follows, however the stream is cut |
| Framing.Receiver.RoundForLength | model/controller/Global.cs:195-210 | the bytes of a length are collected; an accepted length opens a payload of that size |
| Framing.Receiver.RoundForPayload | model/controller/Global.cs:212-224 | the bytes of a payload are collected; a whole payload is queued and the next length begins |
| Framing.Receiver.Receive | model/controller/Global.cs:181-225 | whatever each read returns, the queue holds the packets of the bytes taken, and only an unacceptable length stops the loop |
| Framing.Receiver.ReceiveFrames | model/controller/Global.cs:181-225 | frames of acceptable payloads, whole or cut anywhere, come out in order, all of them if the stream is whole |
| Framing.NeverStuck | model/controller/Global.cs:203-207 | no cut of acceptable frames leaves a length that stops the receiver |
| Framing.Handle | model/controller/Global.cs:152-155 | for every reply: it is the one returned exactly if the packet is its prefix, cmd and result between single spaces; otherwise the packet is dropped |
| Framing.ReadsReply | model/controller/Global.cs:152-155 | a packet is read as prefix, cmd and result exactly if it is those three between single spaces, the first two without spaces |
| RingBuffer.CountIsRight | model/model/include/fixed_size_buffer.h:52-55 | the count is right for all positions exactly up to a size of 2^31 |
| RingBuffer.LastPushes | model/model/include/fixed_size_buffer.h:70-83 | what is left after any number of pushes is the last size - 1 items |
| RingBuffer.FixedSizeBuffer.Push | model/model/include/fixed_size_buffer.h:70-83 | the item is appended, and the oldest dropped exactly when size - 1 are held |
| RingBuffer.FixedSizeBuffer.Pop | model/model/include/fixed_size_buffer.h:57-68 | the oldest item goes, if there is one |
| RingBuffer.FixedSizeBuffer.Count | model/model/include/fixed_size_buffer.h:52-55 | the number of items held |
| RingBuffer.FixedSizeBuffer.IsFull | model/model/include/fixed_size_buffer.h:47-50 | exactly when size - 1 items are held |
| RingBuffer.FixedSizeBuffer.IsEmpty | model/model/include/fixed_size_buffer.h:42-45 | exactly when no item is held |
| RingBuffer.FixedSizeBuffer.Get | model/model/include/fixed_size_buffer.h:85-88 | the i-th oldest item |
| RingBuffer.FixedSizeBuffer.Clear | model/model/include/fixed_size_buffer.h:36-40 | no item is held |

## Left out

- ListTypes.CalcFunc: the two benchmarks it calls return arbitrary values here; what they compute is stated by StateBench.Bench and MatrixTest.Test.
- ListSort.MergeSort: nothing is said about the order when the comparator is `Arbitrary`, because there is no order to speak of; lists of more than 2^31 cells would overflow the `int` that holds the run length.
- ListInit.Init: fewer than 100 bytes are excluded, because the code then follows a null pointer; the two blocks are counters here, the cells are new objects.
- ListInit.Iterate: the list must have strictly increasing indices, because the code goes on from the old head after a run that has moved it.
- StateBench.Bench: that a corrupted block still holds a NUL is required, because the scan would leave the block otherwise; StateBench.StillStops says when it does.
- StateBench.InitState: sizes within nine of 2^32 are excluded, because the sum in the loop guard would wrap around.
- MatrixTest.Test: `core_init_matrix` is not modelled; 32-bit sums wrap around.
- Printf.Vsnprintf: floating-point conversions are compiled out in this configuration and print their letter; a format that ends inside a conversion, or lacks an argument, is excluded, because the code reads past its end; `printf_`, `sprintf_` and `fctprintf` differ only in the output function or pass an unlimited count; the magnitude of the most negative number, an overflow in the code, is taken as 2^31 (2^63).
- PrintfLaws.ReadsBack: numbers without the prefix of the alternative form, which a decimal number never has; PrintfLaws.NumberParts covers the prefix.
- Gshare.InfiniteGshare.Update: addresses are not negative; the queue that delays updates in `main.py` is not modelled.
- BarrierMatMul.Step: the loads of a1 to a8 are read where they are used, because A does not change; `barrier` is not part of the sources and is a step enabled once every core has reached it; A, B, C and the buffer do not overlap.
- CkMatMul.MatMul: lda is a multiple of 16; otherwise the loop that goes round overlaps itself.
- AkMatMul.AllCores: as CkMatMul.AllCores, the calls follow one another.
- BhMatMul.AllCores: as CkMatMul.AllCores, the calls follow one another.
- CkMatMul.AllCores: the calls of different cores follow one another. That a core touches its own rows only is shown by OneCore, and that such cores may interleave by Interleaving.Together, for programs given as functions of what they have read; that a call is such a program is not a lemma.
- Disasm.Handle.Disasm: the decoder and the printer are one pure function of the bytes and the address; allocation does not fail; the pointer to details is not modelled (a skipped piece gets a null one here and keeps its own in the iterator); a buffer so large that the growth of the cache, modulo 2^32, comes to an empty cache is excluded, because the code would write behind its array.
- Framing.Receiver.Receive: sockets, time-outs, threads and the GB2312 codec are not modelled; a payload is its bytes.
- RingBuffer.FixedSizeBuffer.Get: an index past the count, for which the code answers some stale item, is excluded.
- The controller's windows and JSON classes, the simulator's glue (`main.cpp`, `breakpoint.cpp`, `elf_loader.cpp`), the other predictors and matrix kernels, Dhrystone and third-party headers: no algorithm of another kind.
