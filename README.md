# A verified model of the call-on engine of `hakkenshimei628-3.py`

`hakkenshimei628-3.py` is a classroom app that decides who is called on next, so that
every student is called about equally often over a school year. Its core works in
these steps:

1. **Generators.** Three deterministic integer generators draw sequences of values from
   a seed: a 32-bit xorshift object, von Neumann's middle-square method and a linear
   congruential generator. Python's Mersenne Twister is a fourth generator.
2. **Fairness evaluator.** `calculate_variance` reduces every drawn value modulo the
   class size n. It counts how often each seat 0..n-1 occurs and returns the population
   variance of those counts around len/n, together with the reduced list.
3. **Optimiser.** `find_best_seed_and_method` tries every generator, in list order, with
   every seed 0, 100, ..., 1000000. Each try draws k*l values, where k is the number of
   lessons a year and l the number of calls per lesson. It keeps the first pair whose
   variance is strictly lower than the best so far. The reduced list of the winning pair
   becomes the *pool*: seat i is to be called as often as i occurs in it.
4. **Roster.** The names text is split on newlines and each line is stripped. Empty lines
   are dropped, and the list is padded with `名前1`, `名前2`, ... up to n or cut down to n.
   The absentee text is read the same way.
5. **Picking.** A pick subtracts the counts of the history from those of the pool. In
   Python this is `Counter` subtraction, which clamps every count at zero. The pick then
   lists each present seat once per unit of remaining quota, chooses one at random and
   appends it to the history. A saved history can be restored from a table of
   (number, name) rows.

The model is written in Dafny, one module per part:

| module | contents |
|---|---|
| `Decimal` (`decimal.dfy`) | `str`, `zfill`, `int` of digit strings and their arithmetic meaning |
| `Generators` (`generators.dfy`) | the `Xorshift` class, the `Lcg` and `MiddleSquare` loops, each proved equal to a recursive stream function |
| `Fairness` (`fairness.dfy`) | the reduction, the seat counts and the exact (`real`) variance |
| `Optimizer` (`optimizer.dfy`) | the nested search as methods, proved against `Best(Trials(...))`, and the arg-min lemmas |
| `Roster` (`roster.dfy`) | `split`, `strip`, reading lines and padding the roster |
| `Pool` (`pool.dfy`) | `Counter` subtraction, `elements()` order, candidates and the accounting of a pick |
| `History` (`history.dfy`) | writing the history as rows and restoring it |
| `Session` (`session.dfy`) | a `Tab` class holding one class's pool, history and roster: `Prepare`, `Reset` and `Pick` for the buttons, `Restore` for the effect of an uploaded history file |
| `Wrappers` (`wrappers.dfy`) | `Option` |

Restoring a history neither re-runs the optimiser nor touches the pool: it sets the
history and the roster from the table only. The saved table has only the `番号` and
`名前` columns.

## Model

| member | source | states |
|---|---|---|
| Decimal.Str | hakkenshimei628-3.py:28 | `str(x)` of a natural number is never empty |
| Decimal.StrLength | hakkenshimei628-3.py:28 | `len(str(x))` is the number of decimal digits of x |
| Decimal.StrRoundTrip | hakkenshimei628-3.py:33-35 | `int(str(x)) == x` |
| Decimal.StrIsDigits | hakkenshimei628-3.py:33 | `str(x)` and its `zfill` are made of digits only |
| Decimal.ZFill | hakkenshimei628-3.py:33 | `zfill(w)` has length max(len, w) |
| Decimal.ParseBound | hakkenshimei628-3.py:35 | `ParseDecimal`, `int` of a digit string of length w is below 10^w |
| Decimal.ParseZeros | hakkenshimei628-3.py:33 | a string of zeros reads as 0 |
| Decimal.ZFillValue | hakkenshimei628-3.py:33 | zero padding does not change the value read |
| Decimal.ParseConcat | hakkenshimei628-3.py:35 | reading a concatenation shifts the left part by the length of the right part |
| Decimal.ReadWindow | hakkenshimei628-3.py:35 | `int(s[start:start+len])` is below 10^len |
| Decimal.ParseWindow | hakkenshimei628-3.py:33-35 | the digits of a window are the number divided by 10^(digits to its right), mod 10^len |
| Generators.XorInverse | hakkenshimei628-3.py:15-17 | `Xor`, Python's `^` on non-negative integers: xor with b is undone by xor with b |
| Generators.InitialState | hakkenshimei628-3.py:12 | the state a generator starts from is never 0, and is the seed unless the seed is 0 |
| Generators.Step | hakkenshimei628-3.py:14-18 | one xorshift update (13, 17, 5, masked to 32 bits) yields a value below 2^32 |
| Generators.ZeroIsFixedPoint | hakkenshimei628-3.py:12 | 0 is a fixed point of the update, the reason a seed of 0 becomes state 1 |
| Generators.StreamShape | hakkenshimei628-3.py:13-21 | `Stream` and `StateAfter`: `generate(count)` gives `count` values below 2^32; each is one update of the one before, and the final state is the last value |
| Generators.Xorshift.constructor | hakkenshimei628-3.py:11-12 | the state is the seed, or 1 for seed 0, and never 0 |
| Generators.Xorshift.Next | hakkenshimei628-3.py:13-19 | the new state is one update of the old one, and `next` returns it |
| Generators.Xorshift.Generate | hakkenshimei628-3.py:20-21 | the values are the stream from the old state, and the object ends in the state after `count` updates |
| Generators.LcgNext | hakkenshimei628-3.py:41-44 | `(a*x + c) % 2^32` lies in [0, 2^32), also for negative x |
| Generators.LcgStreamShape | hakkenshimei628-3.py:40-46 | `LcgStream`: `count` values below 2^32: `result[0] = (a*seed + c) mod 2^32` and `result[i+1] = (a*result[i] + c) mod 2^32` |
| Generators.Lcg | hakkenshimei628-3.py:40-46 | the loop returns exactly the LCG stream of the seed |
| Generators.MiddleDigits | hakkenshimei628-3.py:32-35 | the d digits read from the middle of the zero-padded square are below 10^d |
| Generators.Window | hakkenshimei628-3.py:32-35 | the arithmetic form of the middle window is below 10^d |
| Generators.MiddleDigitsArithmetic | hakkenshimei628-3.py:33-35 | slicing the zero-padded decimal text is the same as div/mod by powers of 10 |
| Generators.MiddleWindow | hakkenshimei628-3.py:32-35 | one step of the loop body computes the arithmetic middle window of value² |
| Generators.MiddleSquareNext | hakkenshimei628-3.py:37 | the next state is the value just emitted, or seed + 1 after a 0, so it is never 0 |
| Generators.MiddleSquareStreamShape | hakkenshimei628-3.py:27-38 | `MiddleSquareStream`: `count` values, each below 10^d with d the digit count of the seed; each value is the window of the square of the state; after a 0 the state is seed + 1, otherwise the value itself |
| Generators.MiddleSquareStreamStep | hakkenshimei628-3.py:31-37 | the stream is its first window followed by the stream from the next state |
| Generators.MiddleSquare | hakkenshimei628-3.py:27-38 | the loop returns exactly the middle-square stream with d = `len(str(seed))` |
| Generators.MtStream | hakkenshimei628-3.py:23-25 | `mersenne_twister(seed, count)` gives exactly `count` values, each in [0, 100000] |
| Fairness.Reduce | hakkenshimei628-3.py:49 | the reduced list has the input's length, and every element lies in [0, n) |
| Fairness.ReduceResidue | hakkenshimei628-3.py:49 | each reduced value differs from the drawn one by a multiple of n |
| Fairness.Counts | hakkenshimei628-3.py:50-51 | there is one count per seat 0..n-1, and seats that never occur count as 0 |
| Fairness.SumCounts | hakkenshimei628-3.py:50-51 | the counts add up to the occurrences of seats below n |
| Fairness.SeatsBelowAll | hakkenshimei628-3.py:49-51 | a list all of whose values lie in [0, m) has all its elements below m |
| Fairness.CountsSumToLength | hakkenshimei628-3.py:49-52 | the per-seat counts add up to `len(numbers)` |
| Fairness.SumOverZero | hakkenshimei628-3.py:53 | a sum of non-negative terms is non-negative, and is 0 exactly when every term is 0 |
| Fairness.SquareZero | hakkenshimei628-3.py:53 | `(c - expected) ** 2` is non-negative, and 0 only at c == expected |
| Fairness.DivPositive | hakkenshimei628-3.py:53 | dividing by n keeps the sign and keeps 0 |
| Fairness.SquaredGapZero | hakkenshimei628-3.py:52-53 | every squared distance from the expected count is non-negative, and 0 exactly at it |
| Fairness.SumSquaresNonNegative | hakkenshimei628-3.py:53 | the sum of squared distances is non-negative |
| Fairness.Expected | hakkenshimei628-3.py:52 | the expected count e is non-negative, with e * n == len |
| Fairness.UniformCount | hakkenshimei628-3.py:52 | `c == len/n` holds in reals exactly when `n * c == len` |
| Fairness.VarianceZeroIffUniform | hakkenshimei628-3.py:48-54 | the variance is at least 0, and is 0 exactly when every seat count equals `len/n`, that is when `n * count == len` for every seat |
| Fairness.CalculateVariance | hakkenshimei628-3.py:48-54 | the reduced sequence has one seat in [0, n) per drawn value; the variance is non-negative, and 0 exactly when every seat occurs len/n times |
| Optimizer.SeedRange | hakkenshimei628-3.py:58 | `range(0, 1000001, 100)`: 10001 seeds 100*i, from 0 to 1000000 |
| Optimizer.Row | hakkenshimei628-3.py:62-71 | the inner loop tries every seed once |
| Optimizer.RowAt | hakkenshimei628-3.py:62-69 | the j-th trial of a row is the evaluation of the j-th seed |
| Optimizer.BestIndex | hakkenshimei628-3.py:60-71 | the strict-improvement scan ends on a position of the list |
| Optimizer.Best | hakkenshimei628-3.py:60 | there is no best trial exactly when nothing was tried |
| Optimizer.BestIndexIsFirstMinimum | hakkenshimei628-3.py:70-71 | the scan with `var < best[0]` ends on a minimal variance, and every earlier trial is strictly worse |
| Optimizer.BestIndexUnique | hakkenshimei628-3.py:70-71 | the first minimum is the only position with that property |
| Optimizer.BestAppend | hakkenshimei628-3.py:70-71 | one more trial replaces the best exactly when its variance is strictly lower |
| Optimizer.OffsetIsProduct | hakkenshimei628-3.py:61-62 | row i of the nested loops starts at position i * number of seeds |
| Optimizer.PairOf | hakkenshimei628-3.py:61-62 | every position of the search is some (generator, seed) pair |
| Optimizer.PairOrder | hakkenshimei628-3.py:61-62 | pairs earlier in generator-then-seed order come earlier in the search |
| Optimizer.TrialsLength | hakkenshimei628-3.py:61-62 | the search makes one trial per (generator, seed) pair |
| Optimizer.TrialsCount | hakkenshimei628-3.py:61-62 | `Trials`: there are (number of generators) * (number of seeds) trials |
| Optimizer.TrialsShape | hakkenshimei628-3.py:61-69 | generator i with seed j is tried at position i * number of seeds + j |
| Optimizer.WinnerPosition | hakkenshimei628-3.py:60-72 | the best trial is the evaluation of one (generator, seed) pair, found at that pair's position |
| Optimizer.WinnerBeats | hakkenshimei628-3.py:70 | the first minimum is never worse than another pair, and strictly better than every earlier pair |
| Optimizer.TrialsTable | hakkenshimei628-3.py:61-69 | the trial sequence holds every pair's variance at that pair's position |
| Optimizer.EarliestInTable | hakkenshimei628-3.py:60-72 | the first minimum, read as a pair, has a variance at most every pair's and strictly below every earlier pair's |
| Optimizer.BestIsEarliestMinimum | hakkenshimei628-3.py:60-72 | for any generator list, seed list and evaluation: a best trial exists, with variance at most that of every pair, and ties go to the earliest pair |
| Optimizer.NumbersLength | hakkenshimei628-3.py:63-68 | `Numbers`: each of the four generators draws exactly `count` values |
| Optimizer.EvaluatedTrial | hakkenshimei628-3.py:63-69 | `TrialOf` and `Evaluate`: a trial records its generator and seed, and its pool has `count` seats in [0, n) |
| Optimizer.Search | hakkenshimei628-3.py:60-72 | the nested loops over any generator list and seed list compute `Best(Trials(...))` |
| Optimizer.Draw | hakkenshimei628-3.py:63-68 | the dictionary lookup yields the values of the selected generator |
| Optimizer.Try | hakkenshimei628-3.py:63-69 | one inner-loop body yields the evaluation of that (generator, seed) pair |
| Optimizer.SearchRow | hakkenshimei628-3.py:62-71 | the inner loop continues the best over the trials so far with the trials of one generator |
| Optimizer.FindBestSeedAndMethod | hakkenshimei628-3.py:57-72 | `Chosen`: returns the best trial over the four generators and 10001 seeds; its variance is at most that of every pair and strictly below every earlier pair's; the pool has k*l seats in [0, n) |
| Roster.Split | hakkenshimei628-3.py:113 | `split("\n")` never returns an empty list |
| Roster.SplitPiecesFree | hakkenshimei628-3.py:113 | no piece contains the separator |
| Roster.JoinSplit | hakkenshimei628-3.py:113 | joining the pieces with the separator gives the text back |
| Roster.SplitOther | hakkenshimei628-3.py:113 | appending a non-separator character extends the last piece only |
| Roster.SplitExtend | hakkenshimei628-3.py:113 | appending separator-free text extends the last piece only |
| Roster.SplitJoin | hakkenshimei628-3.py:113 | splitting a join of separator-free pieces gives the pieces back |
| Roster.TextStart | hakkenshimei628-3.py:113 | the leading whitespace ends at the first non-space character |
| Roster.TextEnd | hakkenshimei628-3.py:113 | the trailing whitespace starts after the last non-space character |
| Roster.StripShape | hakkenshimei628-3.py:113 | `Strip`, Python's `strip()`, removes whitespace from both ends only, and the result neither starts nor ends with whitespace |
| Roster.StripClean | hakkenshimei628-3.py:113 | a line without surrounding whitespace strips to itself |
| Roster.StripIdempotent | hakkenshimei628-3.py:113 | stripping twice is stripping once |
| Roster.StripLine | hakkenshimei628-3.py:113 | a piece without a newline strips to nothing or to a clean line |
| Roster.CleanLines | hakkenshimei628-3.py:113 | dropping empty lines never adds lines |
| Roster.CleanLinesAreClean | hakkenshimei628-3.py:113 | every line kept is non-empty, stripped and free of newlines |
| Roster.LinesAreClean | hakkenshimei628-3.py:113 | `Lines`: every name read from the text is non-empty, stripped and free of newlines |
| Roster.CleanLinesOfClean | hakkenshimei628-3.py:113 | clean lines are kept as they are |
| Roster.LinesRoundTrip | hakkenshimei628-3.py:113 | writing clean names one per line and reading them back gives the same names |
| Roster.PadName | hakkenshimei628-3.py:115 | `名前{i+1}` is `名前` followed by digits, and is a clean line |
| Roster.NormalizeRoster | hakkenshimei628-3.py:114-118 | the roster has exactly n names; the first min(len(raw), n) are the input, and position i beyond it holds `名前{i+1}` |
| Roster.RosterOf | hakkenshimei628-3.py:112-118 | the roster read from the text has exactly n names |
| Roster.NormalizeIdempotent | hakkenshimei628-3.py:114-117 | normalising a normalised roster changes nothing |
| Roster.RosterKeepsInput | hakkenshimei628-3.py:113-118 | the first entries of the roster are the stripped non-empty input lines, in order |
| Pool.Keys | hakkenshimei628-3.py:175 | the keys of `Counter(pool)` are exactly the values in the pool |
| Pool.KeysDistinct | hakkenshimei628-3.py:175 | every key occurs once |
| Pool.Repeat | hakkenshimei628-3.py:175 | a key is listed as often as its count |
| Pool.RepeatCount | hakkenshimei628-3.py:175 | a repeated key contains that key c times and nothing else |
| Pool.ElementsCount | hakkenshimei628-3.py:175 | `Elements`, `Counter.elements()`, lists each key as often as its count, and nothing else |
| Pool.RemainingIsDifference | hakkenshimei628-3.py:168-175 | `RemainingElements`, the list of `(pc - uc).elements()`, is the multiset difference of pool and history, clamped at zero |
| Pool.Filter | hakkenshimei628-3.py:175 | filtering never adds elements |
| Pool.FilterCount | hakkenshimei628-3.py:175 | filtering keeps every available value as often as it occurs, and drops the rest |
| Pool.CandidateCount | hakkenshimei628-3.py:168-175 | `Candidates` and `Quota`: a seat occurs among the candidates max(0, count in pool − count in history) times when present, and 0 times when absent |
| Pool.CandidatesExist | hakkenshimei628-3.py:175-176 | there is a candidate exactly when some present seat has quota left |
| Pool.Available | hakkenshimei628-3.py:172 | available seats are seats of the roster |
| Pool.AvailableIff | hakkenshimei628-3.py:172 | a seat is available exactly when its name is not among the absentees |
| Pool.RemainingCountIsSize | hakkenshimei628-3.py:195 | `RemainingCount`: the remaining count is the size of the clamped difference, with absentees not filtered out |
| Pool.CandidatesWithinRemaining | hakkenshimei628-3.py:175-195 | there are never more candidates than remaining calls |
| Pool.PickEligible | hakkenshimei628-3.py:175-177 | a picked seat is present and had quota left |
| Pool.PickAccounting | hakkenshimei628-3.py:177-178 | the pick raises the history count of its own seat by one, to at most its pool count, and no other seat's |
| Pool.PickKeepsWithinPool | hakkenshimei628-3.py:177-178 | a history within the pool stays within the pool after a pick |
| Pool.PickConsumesOne | hakkenshimei628-3.py:175-195 | every pick uses up exactly one remaining call |
| Pool.RemainingWithinPool | hakkenshimei628-3.py:195 | while the history stays within the pool, `rem` is the pool length less the history length |
| Pool.PickFromRoster | hakkenshimei628-3.py:170-178 | the picked seat is a seat of the roster whose name is not absent, has quota left, and keeps the history within the pool |
| History.Lookup | hakkenshimei628-3.py:189 | `names[i]` succeeds exactly for -len <= i < len, Python's negative indexing included |
| History.HistoryRows | hakkenshimei628-3.py:189 | a written history has one row per call |
| History.HistoryRowsShape | hakkenshimei628-3.py:189 | the table can be written exactly when every index can be looked up, and row k is (used[k] + 1, name of used[k]) |
| History.ExportDefined | hakkenshimei628-3.py:189 | a history of roster seats can always be written out |
| History.RestoreUsed | hakkenshimei628-3.py:153 | one seat per row, each row's number less one |
| History.RestoreNames | hakkenshimei628-3.py:155 | one name per row |
| History.ExportRestore | hakkenshimei628-3.py:153-155 | restoring a written history gives back the same calls, each with the name it was written with |
| History.RestoreMayExceedPool | hakkenshimei628-3.py:153-154 | a restored history can exceed the pool: the same seat listed twice against a quota of one |
| Session.Choose | hakkenshimei628-3.py:177 | `random.choice` returns some element of a non-empty list |
| Session.Tab.constructor | hakkenshimei628-3.py:121-122 | a class seen for the first time has an empty history and nothing prepared |
| Session.Tab.Prepare | hakkenshimei628-3.py:125-133 | the pool is the optimiser's best trial, optimal over all pairs, with k*l seats of the roster; the roster is kept and the history starts empty |
| Session.Tab.Reset | hakkenshimei628-3.py:143-146 | pool, history and roster are forgotten, and the history is empty again |
| Session.Tab.Restore | hakkenshimei628-3.py:150-158 | with both columns the history and roster come from the table; otherwise nothing changes; the pool is always kept |
| Session.Tab.Pick | hakkenshimei628-3.py:164-186 | a pick happens exactly when there are candidates, chooses one and appends it; the seat is present with quota left; with no pool, roster or candidates nothing changes; within-pool and in-roster are preserved |
| Session.Tab.Remaining | hakkenshimei628-3.py:195 | the calls left are the size of the clamped difference, and pool length less history length while the history is within the pool |
| Session.Tab.Export | hakkenshimei628-3.py:188-189 | the history table can be written whenever every call is a seat of the roster |

## Left out

- The Streamlit page is not modelled: widgets, titles, messages, the member list display (119), the success banner and the call display (135-141, 179, 196-200).
- `st.session_state` is modelled as the fields of one `Tab` object per class. The per-class key prefixes are not modelled.
- The class-list rename, delete and add editing (77-105) is UI list editing with no stated contract.
- `st.cache_data` (56) only memoises `find_best_seed_and_method`, so the optimiser is modelled without a cache.
- Python's `random.seed` and `random.randint(0, 100000)` inside `mersenne_twister` (23-25) are the parameter `randint` of the optimiser: randint(seed, i) is the i-th draw after seeding. Its type holds the range [0, 100000]; the Mersenne Twister algorithm itself is not modelled.
- `random.choice` (177) is modelled as an unspecified choice (`Choose`). The random number generator is not modelled.
- I/O is not modelled: the CSV upload and its parsing with pandas (149-151), the download, its file name and the timestamp (190-193), MP3 upload and playback (160-162, 180-181), and the auto-save frame (182-184). `Restore` takes the table already parsed into rows of integers and names.
- `math.sqrt` and the expected ± standard deviation bounds (128-130) are display only.
- Variances are exact rationals (`real`), not IEEE doubles. Two pairs whose variances differ only below double precision could be ordered differently than by the program.
- Seeds and generator states are non-negative (`nat`). The program only ever uses seeds from `range(0, 1000001, 100)`.
- The rerun after a reset (146) re-creates the empty history at lines 121-122. `Reset` sets the history to empty directly.
- `Prepare` takes the roster read on this run as a parameter. That roster is `RosterOf(name_input, n)` with n >= 1, as the number input demands.
- Session.Tab.Restore: the model treats loading a history as one event. In the program, lines 149-156 run on every rerun of the page while a file stays in the uploader, and a Streamlit uploader keeps its file across reruns. So each later interaction, a pick included, first resets the history to the file's contents before line 178 appends. Picks made while a file stays uploaded do not accumulate. The model's Pick always extends the history it is given.
