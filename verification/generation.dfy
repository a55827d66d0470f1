/** Success-or-error results, standing for the exceptions the source lets
    propagate out of its phases. */
module Results {
  datatype Result<+T, +E> = Success(value: T) | Failure(error: E)
}

/** Run generation (`ExternalSort.CreateInitialRuns`): each batch is sorted
    and written to the temporary file of slot `nextOutputFile`, which
    advances round-robin over `[0, numWays)`.  Every slot's writer is
    disposed by the `using` block around its first write, so a slot holds
    at most one batch. */
module RunGeneration {
  import opened Sorting
  import opened Batching
  import opened Results

  /** State of one slot's writer: still open (nothing written yet), or
      disposed after its one write, with the file holding `contents`. */
  datatype Slot = Open | Closed(contents: seq<int>)

  datatype GenError =
    /** `numWays == 0`: the writer table is empty and indexing slot 0 fails. */
    | NoSlots
    /** Batch number `batch` (counting from 0) is non-empty and its target
        slot `slot` was already disposed: the first `WriteLine` on the
        disposed writer throws. */
    | WriteAfterDispose(slot: nat, batch: nat)

  /** Writes batch number `j` to slot `s` inside a `using` block.  An open
      slot receives the sorted batch and is disposed.  On a disposed slot an
      empty batch calls no `WriteLine` and disposing again does nothing, so
      it succeeds without effect; a non-empty batch fails. */
  function WriteRun(slots: seq<Slot>, s: nat, j: nat, batch: seq<int>): (r: Result<seq<Slot>, GenError>)
    requires s < |slots|
    ensures r.Success? <==> slots[s].Open? || batch == []
    ensures r.Failure? ==> r.error == WriteAfterDispose(s, j)
    ensures r.Success? ==> |r.value| == |slots|
    ensures r.Success? ==> forall t | 0 <= t < |slots| && t != s :: r.value[t] == slots[t]
    ensures r.Success? && slots[s].Open? ==> r.value[s].Closed? && Sorted(r.value[s].contents)
    ensures r.Success? && slots[s].Open? ==> multiset(r.value[s].contents) == multiset(batch)
    ensures r.Success? && slots[s].Closed? ==> r.value[s] == slots[s]
  {
    match slots[s]
    case Open => Success(slots[s := Closed(SortSeq(batch))])
    case Closed(_) => if batch == [] then Success(slots) else Failure(WriteAfterDispose(s, j))
  }

  /** The keys written between two snapshots of the slots: the contents of
      every slot among the first `n` that was open in `before` and is
      disposed in `after`. */
  function NewKeys(before: seq<Slot>, after: seq<Slot>, n: nat): multiset<int>
    requires n <= |before| == |after|
  {
    if n == 0 then multiset{}
    else
      var added := if before[n - 1].Open? && after[n - 1].Closed? then multiset(after[n - 1].contents) else multiset{};
      NewKeys(before, after, n - 1) + added
  }

  /** A write that disposes slot `s` and changes nothing else adds exactly
      the keys it put into slot `s`. */
  lemma {:induction false} NewKeysOne(before: seq<Slot>, after: seq<Slot>, s: nat, n: nat)
    requires n <= |before| == |after| && s < |before|
    requires before[s].Open? && after[s].Closed?
    requires forall t | 0 <= t < |before| && t != s :: after[t] == before[t]
    ensures NewKeys(before, after, n) == if s < n then multiset(after[s].contents) else multiset{}
  {
    if n > 0 {
      NewKeysOne(before, after, s, n - 1);
    }
  }

  /** Nothing is written between a snapshot and itself. */
  lemma {:induction false} NewKeysNone(slots: seq<Slot>, n: nat)
    requires n <= |slots|
    ensures NewKeys(slots, slots, n) == multiset{}
  {
    if n > 0 {
      NewKeysNone(slots, n - 1);
    }
  }

  /** When disposed slots never change, the keys written from `a` to `c`
      are those written from `a` to `b` and then from `b` to `c`. */
  lemma {:induction false} NewKeysTrans(a: seq<Slot>, b: seq<Slot>, c: seq<Slot>, n: nat)
    requires n <= |a| == |b| == |c|
    requires forall t | 0 <= t < |a| && a[t].Closed? :: b[t] == a[t]
    requires forall t | 0 <= t < |b| && b[t].Closed? :: c[t] == b[t]
    ensures NewKeys(a, c, n) == NewKeys(a, b, n) + NewKeys(b, c, n)
  {
    if n > 0 {
      NewKeysTrans(a, b, c, n - 1);
    }
  }

  /** From `before` to `after` the slot count is kept, a disposed slot is
      unchanged, and a slot disposed in between holds sorted keys. */
  predicate Keeps(before: seq<Slot>, after: seq<Slot>) {
    && |after| == |before|
    && forall s | 0 <= s < |before| ::
         if before[s].Closed? then after[s] == before[s] else after[s].Closed? ==> Sorted(after[s].contents)
  }

  /** One successful `WriteRun` keeps the slots and adds exactly the keys
      of its batch. */
  lemma WriteRunKeys(slots: seq<Slot>, s: nat, j: nat, batch: seq<int>)
    requires s < |slots|
    requires WriteRun(slots, s, j, batch).Success?
    ensures var written := WriteRun(slots, s, j, batch).value;
      Keeps(slots, written) && NewKeys(slots, written, |slots|) == multiset(batch)
  {
    var written := WriteRun(slots, s, j, batch).value;
    if slots[s].Open? {
      NewKeysOne(slots, written, s, |slots|);
    } else {
      assert written == slots;
      NewKeysNone(slots, |slots|);
    }
  }

  /** Two steps that keep the slots compose, and their written keys add up. */
  lemma KeepsTrans(a: seq<Slot>, b: seq<Slot>, c: seq<Slot>)
    requires Keeps(a, b) && Keeps(b, c)
    ensures Keeps(a, c)
    ensures NewKeys(a, c, |a|) == NewKeys(a, b, |a|) + NewKeys(b, c, |a|)
  {
    NewKeysTrans(a, b, c, |a|);
  }

  /** The outer loop of run generation, from batch number `j` on, with the
      slot counter at `next`: read a batch, write it to slot `next`, advance
      the counter modulo the slot count, and stop after the batch that saw
      the end of the input.  The counter stays within the slot range.  A
      disposed writer's file never changes again, every file written holds
      a sorted batch, and the files it writes together hold exactly the
      keys of the input.  A failure is a write to a disposed slot by a
      batch numbered `j` or later. */
  function GenerateLoop(input: seq<int>, budget: int, slots: seq<Slot>, next: nat, j: nat): (r: Result<seq<Slot>, GenError>)
    requires budget > 0
    requires next < |slots|
    ensures r.Success? ==> Keeps(slots, r.value)
    ensures r.Success? ==> NewKeys(slots, r.value, |slots|) == multiset(input)
    ensures r.Failure? ==> r.error.WriteAfterDispose? && r.error.slot < |slots| && r.error.batch >= j
    decreases |input|
  {
    var c := ReadBatch(input, budget, 0);
    match WriteRun(slots, next, j, c.batch)
    case Failure(e) => Failure(e)
    case Success(written) =>
      WriteRunKeys(slots, next, j, c.batch);
      if c.atEnd then Success(written)
      else
        var r := GenerateLoop(c.rest, budget, written, (next + 1) % |slots|, j + 1);
        if r.Success? then KeepsTrans(slots, written, r.value); r else r
  }

  /** The file contents once generation ends: the final `Close` of every
      writer leaves a slot that never received a batch empty. */
  function RunContents(slots: seq<Slot>): seq<seq<int>> {
    seq(|slots|, s requires 0 <= s < |slots| => if slots[s].Closed? then slots[s].contents else [])
  }

  /** `CreateInitialRuns(input, runSizeBytes, numWays)`: all `numWays` slots
      start open with the counter at 0; the result is the contents of the
      `numWays` temporary files.  It succeeds exactly when the batches fit
      the `k` slots; slot `s` then holds the sorted batch number `s`, or
      nothing when fewer than `s + 1` batches were read.  Otherwise it fails
      with `k == 0`, or on batch number `k`, which is aimed at slot
      `k % k == 0`, already disposed after batch 0. */
  function CreateInitialRuns(input: seq<int>, budget: int, k: nat): (r: Result<seq<seq<int>>, GenError>)
    requires budget > 0
    ensures r.Success? <==> k > 0 && FitsInSlots(Batches(input, budget), k)
    ensures r.Success? ==> |r.value| == k
    ensures r.Success? ==> forall s | 0 <= s < k ::
      r.value[s] == if s < |Batches(input, budget)| then SortSeq(Batches(input, budget)[s]) else []
    ensures r.Failure? ==> r.error == if k == 0 then NoSlots else WriteAfterDispose(0, k)
  {
    if k == 0 then Failure(NoSlots)
    else
      StartOutcome(input, budget, k);
      match GenerateLoop(input, budget, seq(k, _ => Open), 0, 0)
      case Failure(e) => Failure(e)
      case Success(slots) => Success(RunContents(slots))
  }

  /** Generation succeeds exactly when no non-empty batch is left over once
      every slot has had one: at most `k` batches, or `k + 1` of which the
      last (the trailing one of a boundary-exact input) is empty. */
  predicate FitsInSlots(bs: seq<seq<int>>, k: nat) {
    |bs| <= k || (|bs| == k + 1 && bs[k] == [])
  }

  /** Slot states after the first `m` batches of `bs` have been written to
      slots `0 .. m-1`, with `m <= k`. */
  function SlotsAfter(bs: seq<seq<int>>, k: nat, m: nat): (slots: seq<Slot>)
    requires m <= |bs| && m <= k
    ensures |slots| == k
  {
    seq(k, s requires 0 <= s < k => if s < m then Closed(SortSeq(bs[s])) else Open)
  }

  function Min(a: nat, b: nat): (m: nat)
    ensures m <= a && m <= b && (m == a || m == b)
  {
    if a <= b then a else b
  }

  lemma {:induction false} MulAtLeast(d: int, k: int)
    requires d >= 1 && k >= 0
    ensures d * k >= k
    decreases d
  {
    if d > 1 {
      MulAtLeast(d - 1, k);
      assert d * k == (d - 1) * k + k;
    }
  }

  lemma MulSmall(d: int, k: int)
    requires k > 0 && -k < d * k < k
    ensures d == 0
  {
    if d >= 1 {
      MulAtLeast(d, k);
    } else if d <= -1 {
      MulAtLeast(-d, k);
    }
  }

  /** Euclidean remainder is determined by any quotient/remainder split. */
  lemma ModUnique(j: int, k: int, q: int, r: int)
    requires k > 0 && 0 <= r < k && j == q * k + r
    ensures j % k == r
  {
    var q', r' := j / k, j % k;
    assert j == q' * k + r' && 0 <= r' < k;
    assert (q - q') * k == q * k - q' * k;
    MulSmall(q - q', k);
  }

  /** Advancing the slot counter `(next + 1) % k` keeps it equal to the
      batch number modulo `k`. */
  lemma ModSucc(j: nat, k: nat)
    requires k > 0
    ensures (j % k + 1) % k == (j + 1) % k
  {
    var q, r := j / k, j % k;
    assert j == q * k + r && 0 <= r < k;
    if r + 1 < k {
      ModUnique(j + 1, k, q, r + 1);
      ModUnique(r + 1, k, 0, r + 1);
    } else {
      assert (q + 1) * k == q * k + k;
      ModUnique(j + 1, k, q + 1, 0);
      ModUnique(r + 1, k, 1, 0);
    }
  }

  /** Writing batch number `j` to slot `j % k` after the batches before it:
      the slot is still open exactly when `j < k`. */
  lemma WriteStep(bs: seq<seq<int>>, k: nat, j: nat)
    requires k > 0 && j < |bs|
    ensures var w := WriteRun(SlotsAfter(bs, k, Min(j, k)), j % k, j, bs[j]);
      && (w.Success? <==> j < k || bs[j] == [])
      && (w.Success? ==> w.value == SlotsAfter(bs, k, Min(j + 1, k)))
      && (w.Failure? ==> w.error == WriteAfterDispose(j % k, j))
  {
    var slots := SlotsAfter(bs, k, Min(j, k));
    if j < k {
      assert j % k == j;
      assert slots[j] == Open;
      var after := slots[j := Closed(SortSeq(bs[j]))];
      assert WriteRun(slots, j, j, bs[j]) == Success(after);
      assert forall t | 0 <= t < k :: after[t] == SlotsAfter(bs, k, j + 1)[t];
    } else {
      assert Min(j, k) == k && Min(j + 1, k) == k;
      assert slots[j % k].Closed?;
    }
  }

  /** The outer loop from batch `j` on, where `bs` are all the batches of the
      original input and the first `j` of them are written.  Batch `i` goes
      to slot `i % k`; the loop succeeds exactly when every batch from
      number `k` on is empty, and otherwise fails on the first non-empty
      one of them. */
  lemma GenerateLoopOutcome(input: seq<int>, budget: int, bs: seq<seq<int>>, k: nat, j: nat)
    requires budget > 0 && k > 0
    requires j < |bs| && Batches(input, budget) == bs[j..]
    ensures var r := GenerateLoop(input, budget, SlotsAfter(bs, k, Min(j, k)), j % k, j);
      && (r.Success? <==> forall i | j <= i < |bs| && k <= i :: bs[i] == [])
      && (r.Success? ==> r.value == SlotsAfter(bs, k, Min(|bs|, k)))
      && (r.Failure? ==> r.error.WriteAfterDispose?
                         && j <= r.error.batch < |bs| && k <= r.error.batch
                         && r.error.slot == r.error.batch % k
                         && bs[r.error.batch] != []
                         && forall i | j <= i < r.error.batch && k <= i :: bs[i] == [])
  {
    LoopSucceeds(input, budget, bs, k, j);
    LoopFails(input, budget, bs, k, j);
  }

  /** The success half of `GenerateLoopOutcome`. */
  lemma {:induction false} LoopSucceeds(input: seq<int>, budget: int, bs: seq<seq<int>>, k: nat, j: nat)
    requires budget > 0 && k > 0
    requires j < |bs| && Batches(input, budget) == bs[j..]
    ensures var r := GenerateLoop(input, budget, SlotsAfter(bs, k, Min(j, k)), j % k, j);
      && (r.Success? <==> forall i | j <= i < |bs| && k <= i :: bs[i] == [])
      && (r.Success? ==> r.value == SlotsAfter(bs, k, Min(|bs|, k)))
    decreases |input|
  {
    var c := ReadBatch(input, budget, 0);
    LoopStep(input, budget, bs, k, j);
    var w := WriteRun(SlotsAfter(bs, k, Min(j, k)), j % k, j, c.batch);
    if w.Success? && !c.atEnd {
      LoopSucceeds(c.rest, budget, bs, k, j + 1);
      assert (forall i | j <= i < |bs| && k <= i :: bs[i] == [])
         <==> (forall i | j + 1 <= i < |bs| && k <= i :: bs[i] == []);
    } else if w.Success? {
      assert Min(|bs|, k) == Min(j + 1, k);
    }
  }

  /** The failure half of `GenerateLoopOutcome`. */
  lemma {:induction false} LoopFails(input: seq<int>, budget: int, bs: seq<seq<int>>, k: nat, j: nat)
    requires budget > 0 && k > 0
    requires j < |bs| && Batches(input, budget) == bs[j..]
    ensures var r := GenerateLoop(input, budget, SlotsAfter(bs, k, Min(j, k)), j % k, j);
      r.Failure? ==> r.error.WriteAfterDispose?
                     && j <= r.error.batch < |bs| && k <= r.error.batch
                     && r.error.slot == r.error.batch % k
                     && bs[r.error.batch] != []
                     && forall i | j <= i < r.error.batch && k <= i :: bs[i] == []
    decreases |input|
  {
    var c := ReadBatch(input, budget, 0);
    LoopStep(input, budget, bs, k, j);
    var w := WriteRun(SlotsAfter(bs, k, Min(j, k)), j % k, j, c.batch);
    if w.Success? && !c.atEnd {
      LoopFails(c.rest, budget, bs, k, j + 1);
    }
  }

  /** One turn of the outer loop from batch `j`: it fails on the write of
      batch `j`, or stops after it at the end of the input, or goes on with
      batch `j + 1` and the counter advanced. */
  lemma LoopStep(input: seq<int>, budget: int, bs: seq<seq<int>>, k: nat, j: nat)
    requires budget > 0 && k > 0
    requires j < |bs| && Batches(input, budget) == bs[j..]
    ensures var c := ReadBatch(input, budget, 0);
      var w := WriteRun(SlotsAfter(bs, k, Min(j, k)), j % k, j, c.batch);
      var r := GenerateLoop(input, budget, SlotsAfter(bs, k, Min(j, k)), j % k, j);
      && bs[j] == c.batch
      && (w.Failure? ==> r == w && w.error == WriteAfterDispose(j % k, j))
      && (w.Success? <==> j < k || bs[j] == [])
      && (w.Success? && c.atEnd ==> |bs| == j + 1 && r == Success(SlotsAfter(bs, k, Min(j + 1, k))))
      && (w.Success? && !c.atEnd ==>
            && j + 1 < |bs| && Batches(c.rest, budget) == bs[j + 1..]
            && r == GenerateLoop(c.rest, budget, SlotsAfter(bs, k, Min(j + 1, k)), (j + 1) % k, j + 1))
  {
    var slots := SlotsAfter(bs, k, Min(j, k));
    var c := ReadBatch(input, budget, 0);
    BatchesFrom(input, budget, bs, j);
    WriteStep(bs, k, j);
    var w := WriteRun(slots, j % k, j, c.batch);
    if w.Success? && !c.atEnd {
      var written, next := w.value, (j % k + 1) % |slots|;
      assert GenerateLoop(input, budget, slots, j % k, j) == GenerateLoop(c.rest, budget, written, next, j + 1);
      ModSucc(j, k);
      assert next == (j + 1) % k;
      assert written == SlotsAfter(bs, k, Min(j + 1, k));
    }
  }

  /** The batch the outer loop reads from the rest of the input is the next
      of the input's batches; the end of the input comes with the last one. */
  lemma BatchesFrom(input: seq<int>, budget: int, bs: seq<seq<int>>, j: nat)
    requires budget > 0
    requires j < |bs| && Batches(input, budget) == bs[j..]
    ensures var c := ReadBatch(input, budget, 0);
      && bs[j] == c.batch
      && (c.atEnd <==> |bs| == j + 1)
      && (!c.atEnd ==> Batches(c.rest, budget) == bs[j + 1..])
  {
    var c := ReadBatch(input, budget, 0);
    assert bs[j..][0] == c.batch;
    if !c.atEnd {
      assert bs[j..][1..] == bs[j + 1..];
    }
  }

  /** The outer loop started with every slot open, in terms of the batches
      of the input: it succeeds exactly when they fit the `k` slots, leaving
      the sorted batch `s` (or nothing) in slot `s`, and otherwise fails on
      batch `k` in slot 0. */
  lemma StartOutcome(input: seq<int>, budget: int, k: nat)
    requires budget > 0 && k > 0
    ensures var bs := Batches(input, budget);
      var g := GenerateLoop(input, budget, seq(k, _ => Open), 0, 0);
      && (g.Success? <==> FitsInSlots(bs, k))
      && (g.Success? ==> |RunContents(g.value)| == k)
      && (g.Success? ==> forall s | 0 <= s < k :: RunContents(g.value)[s] == if s < |bs| then SortSeq(bs[s]) else [])
      && (g.Failure? ==> g.error == WriteAfterDispose(0, k))
  {
    var bs := Batches(input, budget);
    var g := GenerateLoop(input, budget, seq(k, _ => Open), 0, 0);
    GenerateFromStart(input, budget, k);
    OnlyLastBatchEmpty(input, budget);
    TailEmptyIffFits(bs, k);
    if g.Success? {
      ContentsAfterAll(bs, k);
    } else {
      FailsOnBatchK(bs, k, g.error.batch);
    }
  }

  /** The runs left once every batch that fits has been written. */
  lemma ContentsAfterAll(bs: seq<seq<int>>, k: nat)
    ensures var runs := RunContents(SlotsAfter(bs, k, Min(|bs|, k)));
      |runs| == k && forall s | 0 <= s < k :: runs[s] == if s < |bs| then SortSeq(bs[s]) else []
  {
  }

  /** With only the last batch possibly empty, the first non-empty batch
      from number `k` on is batch `k` itself, aimed at slot 0. */
  lemma FailsOnBatchK(bs: seq<seq<int>>, k: nat, i: nat)
    requires k > 0
    requires forall j | 0 <= j < |bs| - 1 :: bs[j] != []
    requires k <= i < |bs| && bs[i] != []
    requires forall t | k <= t < i :: bs[t] == []
    ensures i == k && i % k == 0
  {
    var first := bs[k];
  }

  /** `GenerateLoopOutcome` at the start: no batch written, all slots open,
      counter at 0. */
  lemma GenerateFromStart(input: seq<int>, budget: int, k: nat)
    requires budget > 0 && k > 0
    ensures var bs := Batches(input, budget);
      var r := GenerateLoop(input, budget, seq(k, _ => Open), 0, 0);
      && (r.Success? <==> forall i | k <= i < |bs| :: bs[i] == [])
      && (r.Success? ==> r.value == SlotsAfter(bs, k, Min(|bs|, k)))
      && (r.Failure? ==> r.error.WriteAfterDispose?
                         && k <= r.error.batch < |bs|
                         && r.error.slot == r.error.batch % k
                         && bs[r.error.batch] != []
                         && forall i | k <= i < r.error.batch :: bs[i] == [])
  {
    var bs := Batches(input, budget);
    assert SlotsAfter(bs, k, 0) == seq(k, _ => Open);
    assert bs[0..] == bs;
    GenerateLoopOutcome(input, budget, bs, k, 0);
  }

  /** With only the last batch possibly empty, "every batch from number `k`
      on is empty" is `FitsInSlots`. */
  lemma TailEmptyIffFits(bs: seq<seq<int>>, k: nat)
    requires forall j | 0 <= j < |bs| - 1 :: bs[j] != []
    ensures (forall i | k <= i < |bs| :: bs[i] == []) <==> FitsInSlots(bs, k)
  {
    if |bs| > k + 1 {
      assert bs[k] != [];
    }
  }

  /** Every run is sorted, and together the runs hold exactly the keys of
      the input. */
  lemma {:induction false} RunsSortedPermutation(input: seq<int>, budget: int, k: nat)
    requires budget > 0
    requires CreateInitialRuns(input, budget, k).Success?
    ensures var runs := CreateInitialRuns(input, budget, k).value;
      AllSorted(runs) && multiset(Flatten(runs)) == multiset(input)
  {
    var bs := Batches(input, budget);
    OnlyLastBatchEmpty(input, budget);
    TailEmptyIffFits(bs, k);
    RunsOfBatches(bs, k, CreateInitialRuns(input, budget, k).value);
  }

  /** Runs holding the sorted batches, padded or cut to `k` slots, are
      sorted and hold the keys of all batches, provided the batches cut off
      are empty. */
  lemma {:induction false} RunsOfBatches(bs: seq<seq<int>>, k: nat, runs: seq<seq<int>>)
    requires forall i | k <= i < |bs| :: bs[i] == []
    requires |runs| == k
    requires forall s | 0 <= s < k :: runs[s] == if s < |bs| then SortSeq(bs[s]) else []
    ensures AllSorted(runs)
    ensures multiset(Flatten(runs)) == multiset(Flatten(bs))
  {
    var padded := seq(k, s requires 0 <= s < k => if s < |bs| then bs[s] else []);
    assert forall s | 0 <= s < k :: multiset(runs[s]) == multiset(padded[s]);
    FlattenPermutation(runs, padded);
    FlattenPadded(bs, k);
  }

  /** Cutting the batch list to `k` slots, or padding it with empty runs,
      loses no key when every batch from number `k` on is empty. */
  lemma {:induction false} FlattenPadded(bs: seq<seq<int>>, k: nat)
    requires forall i | k <= i < |bs| :: bs[i] == []
    ensures Flatten(seq(k, s requires 0 <= s < k => if s < |bs| then bs[s] else [])) == Flatten(bs)
    decreases k + |bs|
  {
    var padded := seq(k, s requires 0 <= s < k => if s < |bs| then bs[s] else []);
    if k == 0 {
      assert padded == [];
      if bs != [] {
        FlattenPadded(bs[1..], 0);
      }
    } else if bs == [] {
      assert padded[1..] == seq(k - 1, s requires 0 <= s < k - 1 => if s < |bs| then bs[s] else []);
      FlattenPadded(bs, k - 1);
    } else {
      assert padded[1..] == seq(k - 1, s requires 0 <= s < k - 1 => if s < |bs[1..]| then bs[1..][s] else []);
      FlattenPadded(bs[1..], k - 1);
    }
  }

  /** Empty input: one empty batch goes to slot 0, and all `k` runs are empty. */
  lemma EmptyInputRuns(budget: int, k: nat)
    requires budget > 0 && k > 0
    ensures GenerateLoop([], budget, seq(k, _ => Open), 0, 0) == Success(seq(k, s => if s == 0 then Closed([]) else Open))
    ensures CreateInitialRuns([], budget, k) == Success(seq(k, _ => []))
  {
    var open := seq(k, _ => Open);
    var written := seq(k, s => if s == 0 then Closed([]) else Open);
    assert ReadBatch([], budget, 0) == Cut([], [], true);
    assert SortSeq([]) == [];
    assert open[0 := Closed([])] == written;
    assert WriteRun(open, 0, 0, []) == Success(written);
    assert RunContents(written) == seq(k, _ => []);
  }
}
