/** Sorted sequences of keys, the in-memory batch sort, and flattening of
    a sequence of runs.  Keys are the source's 32-bit `int` values, modelled
    as unbounded `int`; within this module only the order of keys matters. */
module Sorting {

  /** Keys are non-decreasing from left to right. */
  predicate Sorted(s: seq<int>) {
    forall i, j | 0 <= i < j < |s| :: s[i] <= s[j]
  }

  /** Every run in `runs` is sorted. */
  predicate AllSorted(runs: seq<seq<int>>) {
    forall i | 0 <= i < |runs| :: Sorted(runs[i])
  }

  /** The tail of a sorted sequence is sorted. */
  lemma SortedTail(s: seq<int>)
    requires Sorted(s) && s != []
    ensures Sorted(s[1..])
  {
  }

  /** A key no larger than the head of a sorted sequence can be put in front of it. */
  lemma PrependSorted(h: int, t: seq<int>)
    requires Sorted(t) && (t != [] ==> h <= t[0])
    ensures Sorted([h] + t)
  {
  }

  lemma ConsTail(s: seq<int>)
    requires s != []
    ensures s == [s[0]] + s[1..]
  {
  }

  lemma TailMultiset(s: seq<int>)
    requires s != []
    ensures multiset(s[1..]) == multiset(s) - multiset{s[0]}
  {
    ConsTail(s);
  }

  /** The head of a sorted sequence is at most every key it holds. */
  lemma HeadIsLeast(s: seq<int>, x: int)
    requires Sorted(s) && x in multiset(s)
    ensures s != [] && s[0] <= x
  {
    var i :| 0 <= i < |s| && s[i] == x;
  }

  /** Inserts `x` into the sorted sequence `s` in front of the first key larger than it. */
  function Insert(x: int, s: seq<int>): (r: seq<int>)
    requires Sorted(s)
    ensures Sorted(r)
    ensures multiset(r) == multiset(s) + multiset{x}
    ensures r != [] && (r[0] == x || (s != [] && r[0] == s[0]))
  {
    if s == [] then [x]
    else if x <= s[0] then
      PrependSorted(x, s);
      [x] + s
    else
      SortedTail(s);
      var tail := Insert(x, s[1..]);
      PrependSorted(s[0], tail);
      ConsTail(s);
      [s[0]] + tail
  }

  /** The batch sort (`List<int>.Sort`).  For integer keys every comparison
      sort yields the same result, the unique sorted permutation of its input
      (see `SortedPermutationUnique`), so insertion sort stands for it. */
  function SortSeq(s: seq<int>): (r: seq<int>)
    ensures Sorted(r)
    ensures multiset(r) == multiset(s)
  {
    if s == [] then []
    else
      ConsTail(s);
      Insert(s[0], SortSeq(s[1..]))
  }

  /** Two sorted sequences holding the same keys are equal: a sorted
      permutation is unique. */
  lemma {:induction false} SortedPermutationUnique(a: seq<int>, b: seq<int>)
    requires Sorted(a) && Sorted(b)
    requires multiset(a) == multiset(b)
    ensures a == b
    decreases |a|
  {
    if a != [] {
      HeadIsLeast(b, a[0]);
      HeadIsLeast(a, b[0]);
      assert a[0] == b[0];
      TailMultiset(a);
      TailMultiset(b);
      SortedTail(a);
      SortedTail(b);
      SortedPermutationUnique(a[1..], b[1..]);
      ConsTail(a);
      ConsTail(b);
    } else {
      assert |multiset(b)| == 0;
    }
  }

  /** The concatenation of a sequence of runs, in order. */
  function Flatten(xs: seq<seq<int>>): seq<int> {
    if xs == [] then [] else xs[0] + Flatten(xs[1..])
  }

  /** Replacing every run by a permutation of it permutes the concatenation. */
  lemma {:induction false} FlattenPermutation(xs: seq<seq<int>>, ys: seq<seq<int>>)
    requires |xs| == |ys|
    requires forall i | 0 <= i < |xs| :: multiset(xs[i]) == multiset(ys[i])
    ensures multiset(Flatten(xs)) == multiset(Flatten(ys))
    decreases |xs|
  {
    if xs != [] {
      FlattenPermutation(xs[1..], ys[1..]);
    }
  }
}
