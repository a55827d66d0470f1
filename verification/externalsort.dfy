/** The whole sort (`ExternalSort.ExternalSortFile`): run generation with
    `numWays` slots and budget `runSize`, then the merge of those same
    `numWays` runs. */
module ExternalSort {
  import opened Sorting
  import opened Batching
  import opened Results
  import opened RunGeneration
  import opened Merge

  /** Generation then merge.  An exception in generation ends the sort
      before the merge starts.  When generation succeeds, the output is the
      input sorted: a sorted permutation of it, and the only one. */
  method ExternalSortFile(input: seq<int>, budget: int, k: nat) returns (r: Result<seq<int>, GenError>)
    requires budget > 0
    ensures r.Success? <==> k > 0 && FitsInSlots(Batches(input, budget), k)
    ensures r.Failure? ==> r.error == if k == 0 then NoSlots else WriteAfterDispose(0, k)
    ensures r.Success? ==> Sorted(r.value) && multiset(r.value) == multiset(input)
    ensures r.Success? ==> r.value == SortSeq(input)
  {
    var generated := CreateInitialRuns(input, budget, k);
    if generated.Failure? {
      return Failure(generated.error);
    }
    var runs := generated.value;
    RunsSortedPermutation(input, budget, k);
    ghost var trace;
    var output;
    output, trace := MergeFiles(runs);
    SortedPermutationUnique(output, SortSeq(input));
    r := Success(output);
  }

  /** Input whose text is within the budget is read as one batch (followed
      by an empty one when it fills the budget exactly), so there is one
      non-empty run, in slot 0, holding the sorted input. */
  lemma SmallInputOneRun(input: seq<int>, budget: int, k: nat)
    requires budget > 0 && k > 0
    requires Bytes(input) <= budget
    ensures var r := CreateInitialRuns(input, budget, k);
      && r.Success? && |r.value| == k
      && r.value[0] == SortSeq(input)
      && forall s | 1 <= s < k :: r.value[s] == []
  {
    WithinBudgetShape(input, budget);
    var bs := Batches(input, budget);
    var runs := CreateInitialRuns(input, budget, k).value;
    forall s | 1 <= s < k
      ensures runs[s] == []
    {
      if s < |bs| {
        assert SortSeq(bs[s]) == [];
      }
    }
  }

  /** The six keys 5, 3, 8, 1, 9, 2, one byte each, with a budget of two
      bytes: three full batches of two keys, then the trailing empty batch
      because the input ends on a budget boundary. */
  lemma ExampleBatches(input: seq<int>)
    requires input == [5, 3, 8, 1, 9, 2]
    ensures var bs := Batches(input, 2);
      && |bs| == 4
      && bs[0] == [5, 3] && bs[1] == [8, 1] && bs[2] == [9, 2] && bs[3] == []
  {
    var rest := [8, 1, 9, 2];
    assert input == [5, 3] + rest;
    ReadPair(5, 3, rest);
    BatchesOfLastFour(rest);
    BatchesCons(input, 2);
  }

  /** The last four keys of the example: two full batches and the trailing
      empty one. */
  lemma BatchesOfLastFour(input: seq<int>)
    requires input == [8, 1, 9, 2]
    ensures var bs := Batches(input, 2);
      && |bs| == 3 && bs[0] == [8, 1] && bs[1] == [9, 2] && bs[2] == []
  {
    var rest := [9, 2];
    assert input == [8, 1] + rest && rest == [9, 2] + [];
    ReadPair(8, 1, rest);
    ReadPair(9, 2, []);
    EmptyInputOneEmptyBatch(2);
    BatchesCons(rest, 2);
    BatchesCons(input, 2);
  }

  /** Two one-digit keys fill a two-byte budget. */
  lemma ReadPair(a: int, b: int, rest: seq<int>)
    requires 0 <= a < 10 && 0 <= b < 10
    ensures ReadBatch([a, b] + rest, 2, 0) == Cut([a, b], rest, false)
  {
    assert ([a, b] + rest)[1..] == [b] + rest;
    assert ([b] + rest)[1..] == rest;
    assert ReadBatch(rest, 2, 2) == Cut([], rest, false);
    assert ReadBatch([b] + rest, 2, 1) == Cut([b], rest, false);
  }

  /** With three slots the batches fill slots 0, 1 and 2, and the trailing
      empty batch aimed at the disposed slot 0 writes nothing. */
  lemma ExampleThreeSlots(input: seq<int>)
    requires input == [5, 3, 8, 1, 9, 2]
    ensures var r := CreateInitialRuns(input, 2, 3);
      && r.Success? && |r.value| == 3
      && r.value[0] == [3, 5] && r.value[1] == [1, 8] && r.value[2] == [2, 9]
  {
    ExampleBatches(input);
    SortPairExample([5, 3]);
    SortPairExample([8, 1]);
    SortPairExample([9, 2]);
  }

  /** Sorting two keys that are out of order swaps them. */
  lemma SortPairExample(s: seq<int>)
    requires |s| == 2 && s[0] > s[1]
    ensures SortSeq(s) == [s[1], s[0]]
  {
    var t := [s[1], s[0]];
    assert s == [s[0]] + [s[1]];
    assert multiset(s) == multiset(t);
    SortedPermutationUnique(SortSeq(s), t);
  }

  /** With only two slots the third batch is aimed at slot 0 again, which
      was disposed after the first batch: generation fails. */
  lemma ExampleTwoSlots(input: seq<int>)
    requires input == [5, 3, 8, 1, 9, 2]
    ensures CreateInitialRuns(input, 2, 2) == Failure(WriteAfterDispose(0, 2))
  {
    ExampleBatches(input);
  }
}
