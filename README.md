# Make-24 level generator, modelled in Dafny

`solve.js` generates the levels of a "make 24" card game. The program works in five stages:

1. Every non-decreasing tuple of four card values from 1 to 31 (24 excluded) is visited.
2. Each tuple is solved by brute force: every ordering of the four values, combined with every one of five expression-tree shapes and every operator at every node. The solutions are the expressions that evaluate to exactly 24.
3. The tuples that have at least one solution are sorted by decreasing number of solutions.
4. The sorted list is split into 100 levels. Each level but the last holds a multiple of 3 puzzles.
5. Each level's values are bit-packed: six 5-bit values become five 6-bit values, written with a 64-character table.

The model follows the code stage by stage.
- `Expressions`: the tree shapes (`CONFIGS`), the `compute` evaluator as a method with its three nested loops, and a recursive specification `Eval`. A small reader of the fully parenthesised texts also lives here. It shows that each result's text evaluates to its value.
- `Arrangements`: `getAllArrangements`, with its four index loops and the first-occurrence filter. Lemmas show that the arrangements are exactly the permutations of the input, without repetitions, and that there are 24 when the values are distinct.
- `Solver`: `solve`, with its loops over the arrangements and the shapes, and the `=== 24` filter.
- `Corpus`: the four nested tuple loops of `createLevelsModule`. Each loop level is its own method. Lemmas show which tuples are visited, that none is visited twice, that 40920 are visited, and which puzzles are kept.
- `Levels`: the sort as a stable insertion sort, `getHigherMultipleOf3LowerThan`, and the rounding `Math.floor(0.5 + n/k)`. Also the level loop with `splice`, and the properties of the resulting partition.
- `BitPacking`: `chunk`, `encode` and `BASE64_ALPHABET`. They are modelled with JavaScript's 32-bit shift semantics, and `|` is modelled bit by bit. A decoder on the 6-bit values is the partner of the encoder.
- `Decimal` and `Wrappers`: decimal text of integers, and an `Option` type.

Arithmetic on the expression values is exact (`real`). Integers are unbounded, except where the source's bit operators wrap to 32 bits. There, the wrap is written out (`ToInt32`).

## Model

| member | source | states |
|---|---|---|
| Decimal.NatTextValue | solve.js:36 | The decimal text of a natural number is all digits, has no leading zero, and reads back as that number. |
| Decimal.NatTextInjective | solve.js:36 | Different numbers have different decimal texts. |
| Expressions.Compute | solve.js:32-79 | The result list of `compute` is `Eval(values, config)`. A leaf gives the pair `[value, "value"]`. A node gives, for each left result, each right result and each listed operator in that order, `[l op r, "(" + lt + op + rt + ")"]`. Division by a zero right value is skipped. |
| Expressions.StepDivide | solve.js:66-71 | `/` contributes one result when the right value is non-zero, and none otherwise. |
| Expressions.StepCount | solve.js:50-73 | Each of `+ - * /` contributes exactly one result, except `/` over a zero right value, which contributes none. |
| Expressions.StepMembers | solve.js:50-73 | A pair is contributed by an operator exactly when its value is that operator applied to the operand values and its text is the parenthesised join. |
| Expressions.CombineMembers | solve.js:44-76 | A pair is produced at a node exactly when some left result, right result and listed operator yield it. |
| Expressions.CombineCount | solve.js:44-76 | A node yields L * (R * N - Z * S) results: L left results, R right results, N operators, Z zero-valued right results, S slashes in the operator string. |
| Expressions.CombineBound | solve.js:44-76 | A node yields at most L * R * N results (left results, right results, operators). |
| Expressions.CombineValues | solve.js:44-76 | If every left value lies in L, every right value in R, and each operator maps L and R into S, every value a node produces lies in S. |
| Expressions.EvalBound | solve.js:33-38 | A leaf yields exactly one result. Any tree yields at most the product bound of its shape. |
| Expressions.ConfigsShape | solve.js:12-28 | Each of the five shapes indexes four values, uses only `+*-/`, and has bound 64. |
| Expressions.ConfigsBound | solve.js:12-28 | Each shape yields at most 64 results on four values. |
| Expressions.ReadLeaf | solve.js:36 | The text of an integer, followed by anything but a digit, reads back as that integer. |
| Expressions.ReadResult | solve.js:51-70 | The text of any result of any tree, followed by anything but a digit, reads back as the result's value. |
| Expressions.TextValue | solve.js:51-70 | Evaluating the text of any result reproduces its value, with exact arithmetic. |
| Arrangements.AllArrangements | solve.js:84-114 | The method returns `ArrangementsOf(values)`: the picks pushed by the four index loops, filtered to first occurrences. |
| Arrangements.KeepFirst | solve.js:107-113 | The `already`-set filter returns the first occurrence of each arrangement, in order. |
| Arrangements.KeysMembers | solve.js:107-112 | The `already` set holds exactly the arrangements seen so far. |
| Arrangements.FirstOccurrencesMembers | solve.js:107-113 | The filter neither loses nor adds an arrangement. |
| Arrangements.FirstOccurrencesUnique | solve.js:107-113 | The filtered list has no repetitions. |
| Arrangements.FirstOccurrencesShorter | solve.js:107-113 | The filtered list is no longer than the input. |
| Arrangements.FirstOccurrencesOfUnique | solve.js:107-113 | A list without repetitions passes the filter unchanged. |
| Arrangements.OrdersMembers | solve.js:86-105 | A sequence is pushed exactly when it is the values read at four different indices. |
| Arrangements.OrdersLength | solve.js:86-105 | The index loops push exactly 24 sequences. |
| Arrangements.Loop0Unique | solve.js:86-105 | When the four values are distinct, the pushed sequences are pairwise distinct. |
| Arrangements.PickPermutes | solve.js:96-101 | Values read at four different indices are a permutation of the input. |
| Arrangements.OrdersComplete | solve.js:86-105 | Every permutation of the input is pushed. |
| Arrangements.ArrangementsMembers | solve.js:84-114 | A sequence is an arrangement exactly when it is a permutation of the input. |
| Arrangements.ArrangementsCount | solve.js:84-114 | The arrangements are pairwise distinct and at most 24, and exactly 24 when the values are distinct. |
| Arrangements.ArrangementsLength | solve.js:96-101 | Every arrangement has four values. |
| Solver.ComputeConfigs | solve.js:139-142 | The config loop appends the results of the five shapes, in order, to `allResults`. |
| Solver.Solve | solve.js:135-148 | `solve` returns the results with value exactly 24, taken from the in-order concatenation over arrangements and shapes. |
| Solver.Keep24 | solve.js:146 | The `=== 24` filter. Keep24Members and Keep24Counts state what it keeps: every value-24 result, with its multiplicity and in order, and nothing else. |
| Solver.Keep24Counts | solve.js:146 | The filter keeps every result of value 24, as often as it occurs, and no other. No duplicates are removed. |
| Solver.Keep24Members | solve.js:146 | A result is kept exactly when it was produced and its value is 24. |
| Solver.Keep24Shorter | solve.js:146 | The filter never lengthens the list. |
| Solver.SolutionsMembers | solve.js:135-148 | A result is a solution exactly when its value is 24 and some shape produces it on some permutation of the input. |
| Solver.SolutionsText | solve.js:135-148 | Every solution's text evaluates to 24. |
| Solver.SolutionsBound | solve.js:135-148 | There are at most 24 * 5 * 64 solutions. |
| Solver.OnesTree | solve.js:32-79 | Every result of every tree over `[1, 1, 1, 1]` has a value between -4 and 4. |
| Solver.OnesUnsolvable | solve.js:135-148 | `solve([1, 1, 1, 1])` returns an empty list. |
| Solver.SampleSolution | solve.js:135-148 | `((6*8)/(4-2))`, with value 24, is a solution of `[4, 6, 8, 2]`. It comes from the arrangement `[6, 8, 4, 2]` and the tree that pairs values 0, 1 with values 2, 3. |
| BitPacking.Chunk | solve.js:155-160 | `chunk(value, position)`: a shift by `1 - position` places, left when that is non-negative and right otherwise, masked to 6 bits. ChunkLeft2, ChunkLeft4 and ChunkRight give its value on 5-bit inputs. |
| BitPacking.ChunkLeft2 | solve.js:155-157 | `chunk(v, -2)` on a 5-bit value is its low 3 bits moved up by 3. |
| BitPacking.ChunkLeft4 | solve.js:155-157 | `chunk(v, -4)` on a 5-bit value is its low bit moved up by 5. |
| BitPacking.ChunkRight | solve.js:155-160 | `chunk` with a positive position keeps the high bits of a 5-bit value. |
| BitPacking.OrDisjoint | solve.js:169-173 | Bitwise or of operands whose bits do not overlap is their sum. |
| BitPacking.Word | solve.js:167-173 | The five outputs `o0..o4` of one hexa-word. WordPacked and WordRoundTrip state that on 5-bit inputs they repack the 30 bits and can be undone. |
| BitPacking.WordPacked | solve.js:167-173 | On 5-bit inputs, the five outputs built with `chunk` and bitwise or are the arithmetic repacking of the 30 bits. Missing inputs count as 0. |
| BitPacking.WordRoundTrip | solve.js:167-173 | The six inputs of a group, missing ones as 0, are recovered from its five outputs. |
| BitPacking.Encode | solve.js:162-179 | `encode` returns the characters of the group-by-group outputs. Its length is 5 per started group of six. |
| BitPacking.OutputsLength | solve.js:164-177 | Five outputs are written per started group of six inputs. |
| BitPacking.PaddedExtends | solve.js:164-167 | The padded input is the input followed by zeros. |
| BitPacking.PaddedWhole | solve.js:164-167 | A whole number of groups needs no padding. |
| BitPacking.OutputsPadded | solve.js:164-177 | A trailing short group gives the same outputs, and the same characters, as that group padded with zeros. |
| BitPacking.DecodeOutputs | solve.js:164-177 | Decoding the outputs of 5-bit inputs gives the inputs padded with zeros to whole groups. |
| BitPacking.RoundTrip | solve.js:164-177 | For 5-bit inputs filling whole groups, decoding the outputs gives exactly the inputs. |
| BitPacking.OutputsInjective | solve.js:164-177 | Two 5-bit inputs of the same length with the same outputs are equal. |
| BitPacking.AlphabetAliases | solve.js:30 | The table has 64 characters, and index k and k + 26 (k < 26) hold the same letter. |
| BitPacking.CharactersNotInjective | solve.js:30 | Inputs `[13,0,0,0,0,0]` and `[0,0,0,0,0,0]` differ and have different outputs, yet both encode to `"AAAAA"`. |
| BitPacking.TestVector | solve.js:234 | `[5,16,18,27,28,13]` gives the outputs `11,2,22,62,13`. |
| BitPacking.TestVectorText | solve.js:234 | `[5,16,18,27,28,13]` encodes to `"LCW+N"`. |
| Corpus.BuildCorpus | solve.js:190-215 | The loops push exactly `CorpusPuzzles()`, and `counter` ends at `COUNTER_MAX_VALUE` (40920), the number of visited tuples. |
| Corpus.ScanFirst | solve.js:196-214 | The `v1` loop for one `v0` visits its tuples in order. Afterwards `puzzles` holds the puzzles of all tuples visited so far, and `counter` their number. |
| Corpus.ScanSecond | solve.js:198-213 | The `v2` loop for one `v0, v1` visits its tuples in order and keeps `puzzles` and `counter` in step with the visited tuples. |
| Corpus.ScanThird | solve.js:200-212 | The `v3` loop visits the tuples in order, counts each, and pushes `[solutions, values]` for those with solutions. |
| Corpus.SolutionsLength | solve.js:209-210 | The number of solutions of a tuple. |
| Corpus.TuplesMembers | solve.js:194-201 | A tuple is visited exactly when it is non-decreasing, within 1..31, and contains no 24. |
| Corpus.TuplesUnique | solve.js:194-201 | No tuple is visited twice. |
| Corpus.TuplesCount | solve.js:190 | Exactly 40920 tuples are visited. |
| Corpus.SolvedMembers | solve.js:208-211 | A puzzle is pushed for the visited tuples exactly when its tuple was visited and its count is the tuple's positive number of solutions. |
| Corpus.CorpusMembers | solve.js:194-212 | A puzzle is in the corpus exactly when its tuple is one the loops visit and its count is that tuple's positive number of solutions. |
| Corpus.CorpusUnique | solve.js:194-212 | No puzzle is pushed twice. |
| Corpus.CorpusTuples | solve.js:194-212 | Every puzzle's values form a visited tuple. |
| Levels.SortByValueReverse | solve.js:217 | `puzzles.sort(sortByValueReverse)`. SortPermutes, SortDescending, SortStable and SortDetermined characterise it. |
| Levels.SortPermutes | solve.js:217 | The sort is a permutation of the puzzles. |
| Levels.SortDescending | solve.js:128-133 | The sort orders the puzzles by non-increasing solution count. |
| Levels.SortStable | solve.js:217 | Puzzles of equal count keep their relative order. |
| Levels.SortDetermined | solve.js:217 | Any ordering by non-increasing count that keeps equal counts in order is this sort's result. |
| Levels.Rounded | solve.js:223 | The level size is the integer r with r <= n/k + 0.5 < r + 1, that is `Math.floor(0.5 + n/k)`, computed as `(2n + k) / (2k)`. It is at most n. |
| Levels.Remainder3 | solve.js:151 | `value % 3` with the sign of the dividend: between -2 and 2, and `value - r` is a multiple of 3. |
| Levels.HigherMultipleOf3LowerThan | solve.js:150-153 | The result is a multiple of 3. For v >= 0 it lies in (v - 3, v] and is non-negative. For v < 0 it lies in [v, v + 3) and is at most 0. |
| Levels.SpliceCount | solve.js:224 | `splice(0, d)` takes d elements when 0 <= d <= length, and never more than the length. |
| Levels.Share | solve.js:223-224 | How many puzzles a level takes while more than one level is left. ShareExact shows it is the rounded share dropped to a multiple of 3. |
| Levels.Split | solve.js:220-228 | The puzzles of each level, in order. SplitCount, SplitConcat, SplitThirds and SplitOrdered state what it promises. |
| Levels.Flatten | solve.js:225 | The values of the puzzles of a level, one puzzle after another. FlattenPackable states that it yields four 5-bit values per puzzle. |
| Levels.CreateLevelsModule | solve.js:181-228 | With the output left aside, the levels are the texts of the 100 levels of the sorted corpus. |
| Levels.SplitLevels | solve.js:218-228 | The level loop pushes the texts of `Split(sorted, 100)`, in order. |
| Levels.TakeLevel | solve.js:223-225 | One turn splices the rounded share off the front, encodes it, and leaves the rest split into one level fewer. |
| Levels.EncodeLevel | solve.js:225 | A level's text is the encoding of its values, concatenated in order. |
| Levels.SplitCount | solve.js:220-228 | The loop makes exactly `nbLevels` levels. |
| Levels.SplitConcat | solve.js:220-228 | The levels, concatenated in order, are the sorted puzzles. |
| Levels.ShareExact | solve.js:223-224 | `splice`'s clamp never bites: a level takes exactly the rounded share dropped to a multiple of 3. |
| Levels.SplitThirds | solve.js:222-227 | Every level but the last holds a multiple of 3 puzzles. |
| Levels.SplitOrdered | solve.js:217-228 | A puzzle in an earlier level has at least the count of a puzzle in a later level. |
| Levels.FlattenPackable | solve.js:225 | A level's values are 4 per puzzle, each within 5 bits. |
| Levels.CorpusPackable | solve.js:194-211 | Every corpus puzzle has four 5-bit values. |
| Levels.PartsCover | solve.js:217-228 | There are 100 levels, and together they are the sorted corpus. |
| Levels.PartsMembers | solve.js:217-228 | Every puzzle of a level is a corpus puzzle. |
| Levels.PartsOrdered | solve.js:217-228 | Earlier levels hold puzzles with at least as many solutions as later levels. |
| Levels.LevelRoundTrip | solve.js:225 | A level's outputs decode to its values padded with zeros, and exactly to its values when it holds a multiple of 3 puzzles. |
| Levels.PartsRoundTrip | solve.js:222-228 | Each of the 100 levels decodes to its padded values. Each level but the last decodes exactly, with no padding. |

## Left out

- Console output is not modelled: the generated-module header with its date (solve.js:184-188), the progress report (solve.js:192, 203-207), the final `export` line with `JSON.stringify` (solve.js:230), `printResult` (solve.js:116-119), and the top-level call and `"Done!"` (solve.js:268-269). `CreateLevelsModule` returns the `levels` list instead of printing it.
- The commented-out debug block (solve.js:233-267) is not live code. Only its input vector is used, in `TestVector` and `TestVectorText`.
- The runtime decoder `./levels-decoder` is not part of this model. The decoder here (`Decode`) works on the 6-bit output values.
- The table at solve.js:30 holds `A-Z` twice, so the character text of a level does not determine the level. The model keeps the table as written. Round trips are stated on the 6-bit values, and `CharactersNotInjective` exhibits the loss on characters.
- Expressions.Compute: arithmetic is exact `real`, not IEEE-754 doubles. The model accepts every expression whose exact value is 24, such as `8/(3-8/3)`, which doubles can miss. Solution counts may therefore differ from the program's for such tuples.
- `sortByValue` (solve.js:121-126) is unused.
- Levels.SortByValueReverse: `Array.prototype.sort` is engine code. It is modelled as a stable insertion sort with the comparator of solve.js:128-133. `SortDetermined` shows that every stable sort by that comparator gives the same list.
- The `already` set and `JSON.stringify` keys (solve.js:107-113) are modelled by their effect: `Keys` is the set of sequences seen, and equal keys mean equal sequences.
- `splice` removes elements from the caller's array in place. The model passes the remaining sequence on explicitly instead: `encode` (solve.js:164-165) continues with the rest of its input, and the level loop (solve.js:222-228) continues with the puzzles not yet taken. In-place removal, and aliasing of the caller's array, are not modelled. No code reads `arr` after `encode` returns, and none reads `puzzles` after solve.js:228.
- `const count = puzzles.length` (solve.js:219) is never read.
- Levels.SplitLevels: the starting value of `nbLevels` (100, solve.js:220) is a parameter, passed as `LevelCount` by `CreateLevelsModule`.
- `${value}` (solve.js:36) is modelled for integer values, the only values that reach a leaf.
