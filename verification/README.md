# External merge sort, modelled in Dafny

This project models the two-phase external merge sort of
`External-Sorting.Algo1/Program.cs` (class `ExternalSort`) and proves
properties of it. Files are replaced by sequences of keys (`seq<int>`), so
every file operation becomes reading or writing a whole sequence.

- **Run generation** (`CreateInitialRuns`). The input is cut into batches
  by a byte budget (`runSizeBytes`). A batch keeps reading lines while its
  running byte count is below the budget. A line counts the bytes of its
  decimal text; the newline is not counted. Each batch is sorted and written
  to temporary file number `nextOutputFile`. That counter moves round-robin
  over `numWays` slots.
- **Write-once slots.** Each slot's writer sits in a `using` block, so it is
  disposed after its first batch. A later non-empty batch aimed at the same
  slot throws. A later empty batch writes nothing, and disposing an
  already-disposed writer again does nothing, so that batch is harmless.
- **Merge** (`MergeFiles`). A `SortedSet<(int Element, int Index)>` is
  primed with the head of each run. The loop then repeatedly removes the
  least tuple, writes its key, and adds the next key of the same run, if the
  run has one.
- **Composition** (`ExternalSortFile`). Generation runs first, then the
  merge reads the same `numWays` runs.

Modules:

- `Sorting` (`sorting.dfy`): sortedness; the batch sort `SortSeq`, which
  stands for `List<int>.Sort`; uniqueness of the sorted permutation;
  `Flatten`.
- `Batching` (`batching.dfy`): byte counts of lines, and the inner read loop
  `ReadBatch`. `Batches` is the list of batches the outer loop reads.
- `Results`, `RunGeneration` (`generation.dfy`): slots and the outer loop of
  `CreateInitialRuns`. Exceptions become the `GenError` values `NoSlots` and
  `WriteAfterDispose(slot, batch)`.
- `Merge` (`merge.dfy`): the frontier as a `set<Entry>`, and the merge loop
  with its invariant. `MergeFiles` also returns a ghost `trace` of the
  entries it removed, so that where each key came from can be stated.
- `ExternalSort` (`externalsort.dfy`): the composition, plus worked examples
  on the keys 5, 3, 8, 1, 9, 2.

Two behaviours of the code are easy to miss:

- **Empty input.** It yields one empty batch, written to slot 0, rather than
  no batch at all.
- **Second write to a slot.** A second batch aimed at a slot fails only when
  that batch is non-empty. The trailing empty batch of an input that ends
  exactly on a budget boundary can land on a disposed slot without harm.

What the proofs establish:

- Generation succeeds exactly when the batches fit the slots. That means at
  most `numWays` batches, or `numWays + 1` batches whose last one is the
  empty trailing batch.
- When generation fails, it fails on batch number `numWays`, which is aimed
  at slot 0.
- When generation succeeds, the merged output is the unique sorted
  permutation of the input.

## Model

| member | source | states |
|---|---|---|
| Sorting.SortSeq | External-Sorting.Algo1/Program.cs:149 | the sorted batch is sorted and holds exactly the keys of the batch (a permutation) |
| Sorting.Insert | External-Sorting.Algo1/Program.cs:149 | inserting a key into a sorted sequence keeps it sorted, adds exactly that key, and the result starts with that key or the old head |
| Sorting.SortedPermutationUnique | External-Sorting.Algo1/Program.cs:149 | two sorted sequences holding the same keys are equal, so any comparison sort of integer keys gives the result `SortSeq` gives |
| Batching.LineBytes | External-Sorting.Algo1/Program.cs:140 | the byte count of a line is the length of the key's decimal text: one byte for a minus sign, plus the number of digits `d` of the magnitude, which lies in `[10^(d-1), 10^d)` (in `[0, 10)` for one digit) |
| Batching.DigitsBounds | External-Sorting.Algo1/Program.cs:140 | the byte count of a non-negative key's decimal text is its number of digits: the key lies in `[10^(d-1), 10^d)` |
| Batching.ReadBatch | External-Sorting.Algo1/Program.cs:134-147 | one pass of the inner loop: batch then rest is the input; a pass that hit end of input took everything and stayed below the budget; any other pass reached the budget and was below it before its last line |
| Batching.Batches | External-Sorting.Algo1/Program.cs:129-147 | the batches concatenate back to the input; every batch but the last filled the budget (reached it, and was below it without its last line); the last one stayed below it |
| Batching.EmptyInputOneEmptyBatch | External-Sorting.Algo1/Program.cs:129-147 | empty input yields exactly one batch, and it is empty |
| Batching.OnlyLastBatchEmpty | External-Sorting.Algo1/Program.cs:134-147 | only the last batch can be empty |
| Batching.BoundaryInputTrailingEmptyBatch | External-Sorting.Algo1/Program.cs:134-147 | input whose text reaches the budget exactly on its last line yields that batch followed by a trailing empty batch |
| Batching.WithinBudgetBatches | External-Sorting.Algo1/Program.cs:129-147 | input whose text is below the budget is one batch; input whose text equals the budget is one batch plus an empty one |
| Batching.PrefixCut | External-Sorting.Algo1/Program.cs:134-147 | a budget-filled prefix of a budget-filled input is the whole input |
| RunGeneration.WriteRun | External-Sorting.Algo1/Program.cs:149-156 | the write succeeds exactly when the slot is open or the batch is empty; an open slot receives the sorted batch and is disposed; nothing else changes; a failure names the slot and the batch |
| RunGeneration.ModSucc | External-Sorting.Algo1/Program.cs:158 | advancing the counter by `(next + 1) % numWays` keeps it equal to the batch number modulo `numWays` |
| RunGeneration.WriteStep | External-Sorting.Algo1/Program.cs:149-158 | batch `j` goes to slot `j % numWays`, which is still open exactly when `j < numWays`; after it the slots hold the first `j + 1` sorted batches |
| RunGeneration.GenerateLoop | External-Sorting.Algo1/Program.cs:129-159 | the outer loop keeps the number of slots; a disposed writer's file never changes again; every slot it disposes holds sorted keys, and those slots together hold exactly the keys of the input, each as often as it occurs there; a failure is a write to a disposed slot by a batch numbered at least the starting batch |
| RunGeneration.GenerateLoopOutcome | External-Sorting.Algo1/Program.cs:129-159 | from batch `j` on, the outer loop succeeds exactly when every batch from number `numWays` on is empty; otherwise it fails on the first non-empty one, in slot `batch % numWays` |
| RunGeneration.CreateInitialRuns | External-Sorting.Algo1/Program.cs:113-166 | generation succeeds exactly when `numWays > 0` and the batches fit the slots; slot `s` then holds sorted batch `s`, or nothing; otherwise it fails with `NoSlots`, or on batch `numWays` in slot 0 |
| RunGeneration.RunsSortedPermutation | External-Sorting.Algo1/Program.cs:131-155 | after successful generation every run is sorted and the runs together hold exactly the keys of the input |
| RunGeneration.EmptyInputRuns | External-Sorting.Algo1/Program.cs:118-165 | on empty input the single empty batch closes slot 0, and all `numWays` runs are empty |
| Merge.MinEntry | External-Sorting.Algo1/Program.cs:89 | `SortedSet.Min` returns an entry of the frontier that is at most every entry in tuple order |
| Merge.PendingAdvance | External-Sorting.Algo1/Program.cs:92-94 | advancing one reader past its current key removes exactly that key from the keys not yet emitted |
| Merge.FrontierAdvance | External-Sorting.Algo1/Program.cs:89-98 | after removing the minimum and adding its run's next key, the frontier again holds exactly one entry per unexhausted run, namely that run's next key; the added tuple was not already present |
| Merge.SortedStep | External-Sorting.Algo1/Program.cs:87-99 | for sorted runs, the removed entries stay in tuple order and nothing left in the frontier is below the last one removed |
| Merge.MergeStep | External-Sorting.Algo1/Program.cs:87-99 | one loop iteration keeps the merge invariant and strictly reduces the number of pending keys |
| Merge.MergeFiles | External-Sorting.Algo1/Program.cs:66-111 | every key of every run is written exactly once, and each run's keys appear in the run's order; for sorted runs the output is sorted and equals the sorted concatenation, and equal keys come out in ascending run order |
| ExternalSort.ExternalSortFile | External-Sorting.Algo1/Program.cs:168-172 | the sort succeeds exactly when generation does; when it succeeds the output is sorted, a permutation of the input, and equal to the input sorted |
| ExternalSort.SmallInputOneRun | External-Sorting.Algo1/Program.cs:113-166 | input whose text fits the budget ends up as one sorted run in slot 0, with every other slot empty |
| ExternalSort.ExampleBatches | External-Sorting.Algo1/Program.cs:129-147 | keys 5, 3, 8, 1, 9, 2 with a two-byte budget give batches [5,3], [8,1], [9,2] and a trailing empty batch |
| ExternalSort.ExampleThreeSlots | External-Sorting.Algo1/Program.cs:113-166 | with three slots the example produces runs [3,5], [1,8], [2,9]; the trailing empty batch hits disposed slot 0 harmlessly |
| ExternalSort.ExampleTwoSlots | External-Sorting.Algo1/Program.cs:150-158 | with two slots the example fails: batch 2 is aimed at slot 0, which was disposed after batch 0 |

## Left out

- Win32 job objects: the P/Invoke declarations, the structs and the
  memory-limit setup (`Program.cs:10-62`, `177-204`, `259`). They are
  foreign OS calls.
- `Main`: test-file generation with `Random`, the `Stopwatch` and console
  output (`Program.cs:207-256`). They are test scaffolding and I/O.
- Stream plumbing: `FileStream`, `BufferedStream`, buffer sizes, temp files
  named `i.ToString()`, and closing the readers. A file is its sequence of
  keys, and a writer is an `Open`/`Closed` slot.
- `Parallel.For` deletion of the temporary files (`Program.cs:106-109`). It
  is concurrent file-system cleanup with no effect on the output.
- The text round trip of `WriteLine(int)` and `int.Parse`. Every line is
  taken to be the canonical decimal text of its key:
  - No leading zeros, spaces or `+` sign.
  - Its byte count is `LineBytes`.
  - A line that does not parse (a `FormatException`) or lies outside the
    32-bit range (an `OverflowException`) is not modelled.
- Keys are unbounded `int`, and the 32-bit range is not enforced. On every
  32-bit key the model agrees with the source, because `LineBytes` is the
  exact length of the decimal text of every integer, so the budget cuts
  fall where the source's do.
- The `long` running total `currentRunSize` is unbounded. Overflow near
  `long.MaxValue` is not modelled.
- A non-positive `runSizeBytes` is excluded (`budget > 0`). When
  `numWays > 0` the inner loop then never reads, so the source loops forever
  writing empty batches. When `numWays == 0` the first empty batch indexes
  `tempFile[0]` of the empty writer array, so the call throws
  `IndexOutOfRangeException`. That terminating case is not modelled either.
- A negative `numWays` is excluded (`k: nat`). The source would throw when
  creating the array.
- `numWays == 0`: the source reads the first batch before it fails on
  `tempFile[0]`. The model reports the same failure (`NoSlots`) but does not
  model what was consumed from the reader.
- Merge with a missing temporary file. In the composition the files always
  exist, because generation creates all `numWays` of them.
- The exception type is not kept. A write to a disposed writer is the
  `WriteAfterDispose` value, and an out-of-range slot is `NoSlots`.
