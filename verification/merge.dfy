/** The k-way merge (`ExternalSort.MergeFiles`).  The `SortedSet` of
    `(Element, Index)` tuples is a set of `Entry` values ordered
    lexicographically: by key, then by run index.  Each run is the content
    of one temporary file, read front to back by its own reader. */
module Merge {
  import opened Sorting

  /** One frontier entry: the key a run's reader last read, and the run. */
  datatype Entry = Entry(element: int, index: nat)

  /** The default ordering of `(int, int)` value tuples: by the first
      component, then by the second. */
  predicate EntryLe(a: Entry, b: Entry) {
    a.element < b.element || (a.element == b.element && a.index <= b.index)
  }

  /** Entries in non-decreasing tuple order: keys ascend, and equal keys
      appear in ascending run order. */
  predicate EntriesSorted(t: seq<Entry>) {
    forall p, q | 0 <= p < q < |t| :: EntryLe(t[p], t[q])
  }

  /** The keys of the entries of `t` that came from run `i`, in order. */
  function Origin(t: seq<Entry>, i: nat): seq<int> {
    if t == [] then []
    else Origin(t[..|t| - 1], i) + (if t[|t| - 1].index == i then [t[|t| - 1].element] else [])
  }

  /** `SortedSet.Min`: the least entry of a non-empty frontier. */
  method MinEntry(frontier: set<Entry>) returns (m: Entry)
    requires frontier != {}
    ensures m in frontier
    ensures forall e | e in frontier :: EntryLe(m, e)
  {
    m :| m in frontier;
    var unseen := frontier - {m};
    while unseen != {}
      invariant m in frontier
      invariant unseen <= frontier
      invariant forall e | e in frontier && e !in unseen :: EntryLe(m, e)
      decreases unseen
    {
      var e :| e in unseen;
      if !EntryLe(m, e) {
        m := e;
      }
      unseen := unseen - {e};
    }
  }

  /** Read positions of the readers: `pos[i]` keys of run `i` have been
      emitted. */
  predicate CursorsOk(runs: seq<seq<int>>, pos: seq<nat>) {
    |pos| == |runs| && forall i | 0 <= i < |runs| :: pos[i] <= |runs[i]|
  }

  /** The frontier holds, for each run with keys left, exactly one entry:
      the run's next key tagged with the run's index, and nothing else.
      In particular no two entries share a run index, so an `Add` never
      meets an equal tuple already present. */
  predicate FrontierHolds(frontier: set<Entry>, runs: seq<seq<int>>, pos: seq<nat>)
    requires CursorsOk(runs, pos)
  {
    && (forall e | e in frontier ::
          e.index < |runs| && pos[e.index] < |runs[e.index]| && e.element == runs[e.index][pos[e.index]])
    && (forall i | 0 <= i < |runs| && pos[i] < |runs[i]| :: Entry(runs[i][pos[i]], i) in frontier)
  }

  /** The keys not yet emitted, over runs `i ..` */
  function Pending(runs: seq<seq<int>>, pos: seq<nat>, i: nat): multiset<int>
    requires CursorsOk(runs, pos) && i <= |runs|
    decreases |runs| - i
  {
    if i == |runs| then multiset{} else multiset(runs[i][pos[i]..]) + Pending(runs, pos, i + 1)
  }

  /** Before anything is read, every key of runs `i ..` is pending. */
  lemma {:induction false} PendingAtStart(runs: seq<seq<int>>, pos: seq<nat>, i: nat)
    requires CursorsOk(runs, pos) && i <= |runs|
    requires forall t | 0 <= t < |runs| :: pos[t] == 0
    ensures Pending(runs, pos, i) == multiset(Flatten(runs[i..]))
    decreases |runs| - i
  {
    if i < |runs| {
      assert runs[i..] == [runs[i]] + runs[i + 1..];
      assert runs[i][0..] == runs[i];
      PendingAtStart(runs, pos, i + 1);
    } else {
      assert runs[i..] == [];
    }
  }

  /** Once every reader is exhausted nothing is pending. */
  lemma {:induction false} PendingAtEnd(runs: seq<seq<int>>, pos: seq<nat>, i: nat)
    requires CursorsOk(runs, pos) && i <= |runs|
    requires forall t | 0 <= t < |runs| :: pos[t] == |runs[t]|
    ensures Pending(runs, pos, i) == multiset{}
    decreases |runs| - i
  {
    if i < |runs| {
      assert runs[i][pos[i]..] == [];
      PendingAtEnd(runs, pos, i + 1);
    }
  }

  /** Advancing reader `j` past its current key removes exactly that key
      from the pending keys. */
  lemma {:induction false} PendingAdvance(runs: seq<seq<int>>, pos: seq<nat>, j: nat, i: nat)
    requires CursorsOk(runs, pos) && i <= |runs|
    requires j < |runs| && pos[j] < |runs[j]|
    ensures CursorsOk(runs, pos[j := pos[j] + 1])
    ensures j >= i ==> Pending(runs, pos, i) == Pending(runs, pos[j := pos[j] + 1], i) + multiset{runs[j][pos[j]]}
    ensures j < i ==> Pending(runs, pos, i) == Pending(runs, pos[j := pos[j] + 1], i)
    decreases |runs| - i
  {
    var pos' := pos[j := pos[j] + 1];
    if i < |runs| {
      PendingAdvance(runs, pos, j, i + 1);
      assert Pending(runs, pos, i) == multiset(runs[i][pos[i]..]) + Pending(runs, pos, i + 1);
      assert Pending(runs, pos', i) == multiset(runs[i][pos'[i]..]) + Pending(runs, pos', i + 1);
      if i == j {
        assert runs[j][pos[j]..] == [runs[j][pos[j]]] + runs[j][pos'[j]..];
        assert multiset(runs[j][pos[j]..]) == multiset{runs[j][pos[j]]} + multiset(runs[j][pos'[j]..]);
        assert Pending(runs, pos, i + 1) == Pending(runs, pos', i + 1);
      } else {
        assert pos'[i] == pos[i];
      }
    }
  }

  /** The frontier after one iteration: the least entry `root` removed and,
      when run `root.index` has a key after the one just emitted, that key
      added. */
  function NextFrontier(frontier: set<Entry>, runs: seq<seq<int>>, pos: seq<nat>, root: Entry): set<Entry>
    requires CursorsOk(runs, pos) && root.index < |runs|
  {
    var j := root.index;
    if pos[j] + 1 < |runs[j]| then frontier - {root} + {Entry(runs[j][pos[j] + 1], j)} else frontier - {root}
  }

  /** One iteration of the merge loop keeps the frontier invariant: after
      removing the minimum `root` of run `j` and advancing that run's
      reader, the run's next key (if any) is not yet in the frontier, and
      adding it restores one entry per run with keys left. */
  lemma FrontierAdvance(frontier: set<Entry>, runs: seq<seq<int>>, pos: seq<nat>, root: Entry)
    requires CursorsOk(runs, pos) && FrontierHolds(frontier, runs, pos)
    requires root in frontier
    ensures var j := root.index;
      var pos' := pos[j := pos[j] + 1];
      && CursorsOk(runs, pos')
      && (pos'[j] < |runs[j]| ==> Entry(runs[j][pos'[j]], j) !in frontier - {root})
      && FrontierHolds(NextFrontier(frontier, runs, pos, root), runs, pos')
  {
  }

  /** Every emitted key is the key of the matching removed entry, and that
      entry names one of the `n` runs. */
  predicate Tagged(output: seq<int>, trace: seq<Entry>, n: nat) {
    |output| == |trace| && forall p | 0 <= p < |trace| :: output[p] == trace[p].element && trace[p].index < n
  }

  /** Each run's emitted keys are its first `pos[t]` keys, in order. */
  predicate OriginsMatch(trace: seq<Entry>, runs: seq<seq<int>>, pos: seq<nat>)
    requires CursorsOk(runs, pos)
  {
    forall t | 0 <= t < |runs| :: Origin(trace, t) == runs[t][..pos[t]]
  }

  /** Emitted and pending keys together are all the keys of the runs. */
  predicate Accounted(runs: seq<seq<int>>, pos: seq<nat>, output: seq<int>)
    requires CursorsOk(runs, pos)
  {
    multiset(output) + Pending(runs, pos, 0) == multiset(Flatten(runs))
  }

  /** For sorted runs: the removed entries are in tuple order, and none of
      them exceeds what is still in the frontier. */
  predicate OrderedSoFar(runs: seq<seq<int>>, frontier: set<Entry>, trace: seq<Entry>) {
    AllSorted(runs) ==>
      && EntriesSorted(trace)
      && (trace != [] ==> forall e | e in frontier :: EntryLe(trace[|trace| - 1], e))
  }

  /** What holds between iterations of the merge loop. */
  predicate MergeInv(runs: seq<seq<int>>, frontier: set<Entry>, pos: seq<nat>, output: seq<int>, trace: seq<Entry>) {
    && CursorsOk(runs, pos)
    && FrontierHolds(frontier, runs, pos)
    && Tagged(output, trace, |runs|)
    && OriginsMatch(trace, runs, pos)
    && Accounted(runs, pos, output)
    && OrderedSoFar(runs, frontier, trace)
  }

  /** Emitting the key of `root` keeps keys and entries matched. */
  lemma TaggedAppend(output: seq<int>, trace: seq<Entry>, n: nat, root: Entry)
    requires Tagged(output, trace, n) && root.index < n
    ensures Tagged(output + [root.element], trace + [root], n)
  {
  }

  /** Emitting the key of reader `j` and advancing the reader keeps every key
      accounted for, and one fewer key is pending. */
  lemma AccountedStep(runs: seq<seq<int>>, pos: seq<nat>, output: seq<int>, j: nat)
    requires CursorsOk(runs, pos) && Accounted(runs, pos, output)
    requires j < |runs| && pos[j] < |runs[j]|
    ensures var pos' := pos[j := pos[j] + 1];
      && CursorsOk(runs, pos')
      && Accounted(runs, pos', output + [runs[j][pos[j]]])
      && |Pending(runs, pos', 0)| < |Pending(runs, pos, 0)|
  {
    var x := runs[j][pos[j]];
    PendingAdvance(runs, pos, j, 0);
    assert multiset(output + [x]) == multiset(output) + multiset{x};
  }

  /** One iteration of the merge loop (remove the least entry, emit its key,
      advance its run's reader and add that run's next key) keeps `MergeInv`
      and consumes one pending key. */
  lemma MergeStep(runs: seq<seq<int>>, frontier: set<Entry>, pos: seq<nat>, output: seq<int>, trace: seq<Entry>, root: Entry)
    requires MergeInv(runs, frontier, pos, output, trace)
    requires root in frontier
    requires forall e | e in frontier :: EntryLe(root, e)
    ensures var j := root.index;
      var pos' := pos[j := pos[j] + 1];
      && CursorsOk(runs, pos')
      && (pos'[j] < |runs[j]| ==> Entry(runs[j][pos'[j]], j) !in frontier - {root})
      && MergeInv(runs, NextFrontier(frontier, runs, pos, root), pos', output + [root.element], trace + [root])
      && |Pending(runs, pos', 0)| < |Pending(runs, pos, 0)|
  {
    var j := root.index;
    FrontierAdvance(frontier, runs, pos, root);
    TaggedAppend(output, trace, |runs|, root);
    AccountedStep(runs, pos, output, j);
    OriginAppend(trace, root, runs, pos);
    SortedStep(runs, frontier, pos, trace, root);
  }

  /** For sorted runs, emitting the least entry keeps the emitted entries in
      tuple order, and the new frontier holds nothing below it: the entry
      added for the same run is no smaller because the run is sorted. */
  lemma SortedStep(runs: seq<seq<int>>, frontier: set<Entry>, pos: seq<nat>, trace: seq<Entry>, root: Entry)
    requires CursorsOk(runs, pos) && FrontierHolds(frontier, runs, pos)
    requires OrderedSoFar(runs, frontier, trace)
    requires root in frontier
    requires forall e | e in frontier :: EntryLe(root, e)
    ensures OrderedSoFar(runs, NextFrontier(frontier, runs, pos, root), trace + [root])
  {
    if AllSorted(runs) {
      var j := root.index;
      assert Sorted(runs[j]);
      var t := trace + [root];
      forall p, q | 0 <= p < q < |t|
        ensures EntryLe(t[p], t[q])
      {
        if q == |trace| && p < |trace| {
          assert EntryLe(trace[p], trace[|trace| - 1]);
        }
      }
      assert t[|t| - 1] == root;
    }
  }

  /** `MergeFiles`: prime the frontier with the head of every non-empty run,
      then repeatedly remove the least entry, emit its key, and add the next
      key of the same run if that run has one.  `output` is what is written
      to the output file.  The ghost `trace` records the removed entries; the
      source keeps no such record, and it exists only so that where each key
      came from can be stated.
      Every key of every run is emitted exactly once, and each run's keys
      come out in the run's own order.  When every run is sorted, the
      entries come out in tuple order: the output is sorted and equals the
      sorted concatenation of the runs, and equal keys from different runs
      come out in ascending run order. */
  method MergeFiles(runs: seq<seq<int>>) returns (output: seq<int>, ghost trace: seq<Entry>)
    ensures |output| == |trace| == |Flatten(runs)|
    ensures forall p | 0 <= p < |trace| :: output[p] == trace[p].element && trace[p].index < |runs|
    ensures forall i | 0 <= i < |runs| :: Origin(trace, i) == runs[i]
    ensures multiset(output) == multiset(Flatten(runs))
    ensures AllSorted(runs) ==> EntriesSorted(trace) && Sorted(output)
    ensures AllSorted(runs) ==> output == SortSeq(Flatten(runs))
  {
    var k := |runs|;
    var pos: seq<nat> := seq(k, _ => 0);
    var frontier: set<Entry> := {};
    var i := 0;
    while i < k
      invariant 0 <= i <= k
      invariant forall e | e in frontier :: e.index < i && 0 < |runs[e.index]| && e.element == runs[e.index][0]
      invariant forall t | 0 <= t < i && 0 < |runs[t]| :: Entry(runs[t][0], t) in frontier
    {
      if |runs[i]| > 0 {
        frontier := frontier + {Entry(runs[i][0], i)};
      }
      i := i + 1;
    }

    output := [];
    trace := [];
    PendingAtStart(runs, pos, 0);
    assert runs[0..] == runs;
    while frontier != {}
      invariant MergeInv(runs, frontier, pos, output, trace)
      decreases |Pending(runs, pos, 0)|
    {
      var root := MinEntry(frontier);
      MergeStep(runs, frontier, pos, output, trace, root);
      ghost var next := NextFrontier(frontier, runs, pos, root);
      var j := root.index;
      frontier := frontier - {root};
      output := output + [root.element];
      trace := trace + [root];
      pos := pos[j := pos[j] + 1];
      if pos[j] < |runs[j]| {
        frontier := frontier + {Entry(runs[j][pos[j]], j)};
      }
      assert frontier == next;
    }

    MergeDrained(runs, pos, output, trace);
  }

  /** When the frontier is empty every reader is exhausted, so the loop's
      invariant gives the results of the whole merge. */
  lemma MergeDrained(runs: seq<seq<int>>, pos: seq<nat>, output: seq<int>, trace: seq<Entry>)
    requires MergeInv(runs, {}, pos, output, trace)
    ensures |output| == |trace| == |Flatten(runs)|
    ensures forall i | 0 <= i < |runs| :: Origin(trace, i) == runs[i]
    ensures multiset(output) == multiset(Flatten(runs))
    ensures AllSorted(runs) ==> EntriesSorted(trace) && Sorted(output)
    ensures AllSorted(runs) ==> output == SortSeq(Flatten(runs))
  {
    PendingAtEnd(runs, pos, 0);
    assert forall t | 0 <= t < |runs| :: runs[t][..pos[t]] == runs[t];
    assert |multiset(output)| == |multiset(Flatten(runs))|;
    if AllSorted(runs) {
      SortedPermutationUnique(output, SortSeq(Flatten(runs)));
    }
  }

  /** Appending the entry `root` of run `root.index` extends that run's
      projection by its key and leaves every other projection alone. */
  lemma OriginAppend(trace: seq<Entry>, root: Entry, runs: seq<seq<int>>, pos: seq<nat>)
    requires CursorsOk(runs, pos)
    requires root.index < |runs| && pos[root.index] < |runs[root.index]|
    requires root.element == runs[root.index][pos[root.index]]
    requires OriginsMatch(trace, runs, pos)
    ensures OriginsMatch(trace + [root], runs, pos[root.index := pos[root.index] + 1])
  {
    var j := root.index;
    assert (trace + [root])[..|trace|] == trace;
    assert runs[j][..pos[j] + 1] == runs[j][..pos[j]] + [runs[j][pos[j]]];
  }
}
