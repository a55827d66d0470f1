/** The first half of run generation: cutting the input into batches by the
    byte budget `runSizeBytes` (the inner `while` loop of
    `ExternalSort.CreateInitialRuns`).  Input lines are abstracted to the
    keys they hold; the only thing kept of a line's text is its length. */
module Batching {
  import opened Sorting

  /** Number of characters in the decimal text of a non-negative integer. */
  function Digits(n: nat): (d: nat)
    ensures d >= 1
  {
    if n < 10 then 1 else 1 + Digits(n / 10)
  }

  function Pow10(e: nat): (p: nat)
    ensures p >= 1
  {
    if e == 0 then 1 else 10 * Pow10(e - 1)
  }

  /** `Digits` agrees with the positional definition: a number with `d`
      digits lies in `[10^(d-1), 10^d)` (for one digit, in `[0, 10)`). */
  lemma {:induction false} DigitsBounds(n: nat)
    ensures n < Pow10(Digits(n))
    ensures Digits(n) > 1 ==> Pow10(Digits(n) - 1) <= n
  {
    if n >= 10 {
      DigitsBounds(n / 10);
    }
  }

  /** Byte count of one input line (`Encoding.UTF8.GetByteCount(line)`),
      where the line is the canonical decimal text of the key: an optional
      '-' and the digits, all ASCII, so one byte per character.  The line
      terminator is not counted. */
  function LineBytes(x: int): (b: nat)
    ensures b >= 1
    ensures var sign := if x < 0 then 1 else 0;
      var mag := if x < 0 then -x else x;
      && b > sign
      && mag < Pow10(b - sign)
      && (b - sign > 1 ==> Pow10(b - sign - 1) <= mag)
  {
    DigitsBounds(if x < 0 then -x else x);
    if x < 0 then 1 + Digits(-x) else Digits(x)
  }

  /** Total byte count of a sequence of lines. */
  function Bytes(s: seq<int>): nat {
    if s == [] then 0 else LineBytes(s[0]) + Bytes(s[1..])
  }

  lemma {:induction false} BytesAppend(a: seq<int>, b: seq<int>)
    ensures Bytes(a + b) == Bytes(a) + Bytes(b)
    decreases |a|
  {
    if a != [] {
      assert (a + b)[1..] == a[1..] + b;
      BytesAppend(a[1..], b);
    } else {
      assert a + b == b;
    }
  }

  /** Byte counts of a batch with one more line in front, and of the same
      batch without its last line. */
  lemma ConsBytes(x: int, batch: seq<int>)
    ensures Bytes([x] + batch) == LineBytes(x) + Bytes(batch)
    ensures batch != [] ==> Bytes(([x] + batch)[..|batch|]) == LineBytes(x) + Bytes(batch[..|batch| - 1])
  {
    assert ([x] + batch)[1..] == batch;
    if batch != [] {
      var front := ([x] + batch)[..|batch|];
      assert front[0] == x && front[1..] == batch[..|batch| - 1];
    }
  }

  /** The batch that stopped because of the budget: it is non-empty, its
      total reached the budget, and it was still below the budget before
      its last line was read (the last line may overshoot). */
  predicate BudgetFilled(batch: seq<int>, budget: int) {
    && batch != []
    && Bytes(batch) >= budget
    && Bytes(batch[..|batch| - 1]) < budget
  }

  /** Outcome of one pass of the inner loop: the lines read into the batch,
      the lines still unread, and whether `ReadLine` returned null
      (`moreInputLeft` became false). */
  datatype Cut = Cut(batch: seq<int>, rest: seq<int>, atEnd: bool)

  /** What a pass of the inner loop started with running total `size`
      guarantees: the batch is a prefix of the input and the rest follows
      it; a pass that saw the end of the input took everything and stayed
      below the budget; any other pass reached the budget, and was still
      below it before its last line (or read nothing because `size` already
      reached it). */
  predicate CutOk(input: seq<int>, budget: int, size: int, c: Cut) {
    && c.batch + c.rest == input
    && (c.atEnd ==> c.rest == [] && size + Bytes(c.batch) < budget)
    && (!c.atEnd ==> size + Bytes(c.batch) >= budget)
    && (!c.atEnd && c.batch != [] ==> size + Bytes(c.batch[..|c.batch| - 1]) < budget)
    && (!c.atEnd && c.batch == [] ==> size >= budget)
  }

  /** Reading line `x` below the budget and then the pass `c` over the
      remaining input is a pass over the whole input. */
  lemma CutCons(input: seq<int>, budget: int, size: int, c: Cut)
    requires input != [] && size < budget
    requires CutOk(input[1..], budget, size + LineBytes(input[0]), c)
    ensures CutOk(input, budget, size, Cut([input[0]] + c.batch, c.rest, c.atEnd))
  {
    ConsBytes(input[0], c.batch);
    ConsTail(input);
  }

  /** The inner loop with the running total `size` already accumulated:
      while `size < budget`, read one line and add its byte count; a null
      line ends the input. */
  function ReadBatch(input: seq<int>, budget: int, size: int): (c: Cut)
    ensures c.batch + c.rest == input
    ensures c.atEnd ==> c.rest == [] && size + Bytes(c.batch) < budget
    ensures !c.atEnd ==> size + Bytes(c.batch) >= budget
    ensures !c.atEnd && c.batch != [] ==> size + Bytes(c.batch[..|c.batch| - 1]) < budget
    ensures !c.atEnd && c.batch == [] ==> size >= budget
    decreases |input|
  {
    if size >= budget then Cut([], input, false)
    else if input == [] then Cut([], [], true)
    else
      var c := ReadBatch(input[1..], budget, size + LineBytes(input[0]));
      CutCons(input, budget, size, c);
      Cut([input[0]] + c.batch, c.rest, c.atEnd)
  }

  /** The sequence of batches the outer loop of run generation reads, each
      before sorting.  A batch that saw the end of the input is the last one;
      a batch that filled the budget is followed by another, which is empty
      when the input ended exactly at the budget boundary. */
  function Batches(input: seq<int>, budget: int): (bs: seq<seq<int>>)
    requires budget > 0
    ensures |bs| >= 1
    ensures Flatten(bs) == input
    ensures forall j | 0 <= j < |bs| - 1 :: BudgetFilled(bs[j], budget)
    ensures Bytes(bs[|bs| - 1]) < budget
    decreases |input|
  {
    var c := ReadBatch(input, budget, 0);
    if c.atEnd then
      assert Bytes(c.batch) < budget;
      assert [c.batch][0] == c.batch;
      assert Flatten([c.batch]) == c.batch + Flatten([]);
      [c.batch]
    else
      var tail := Batches(c.rest, budget);
      assert Bytes(c.batch) >= budget;
      assert c.batch != [];
      assert Bytes(c.batch[..|c.batch| - 1]) < budget;
      ConsBatch(c.batch, tail, budget);
      [c.batch] + tail
  }

  /** A budget-filled batch in front of a well-formed batch list keeps it
      well-formed. */
  lemma ConsBatch(b: seq<int>, tail: seq<seq<int>>, budget: int)
    requires BudgetFilled(b, budget)
    requires |tail| >= 1
    requires forall j | 0 <= j < |tail| - 1 :: BudgetFilled(tail[j], budget)
    requires Bytes(tail[|tail| - 1]) < budget
    ensures var bs := [b] + tail;
      && Flatten(bs) == b + Flatten(tail)
      && (forall j | 0 <= j < |bs| - 1 :: BudgetFilled(bs[j], budget))
      && Bytes(bs[|bs| - 1]) < budget
  {
    var bs := [b] + tail;
    assert bs[1..] == tail;
    assert forall j | 1 <= j < |bs| :: bs[j] == tail[j - 1];
  }

  /** A batch that filled the budget is followed by the batches of the
      rest of the input. */
  lemma BatchesCons(input: seq<int>, budget: int)
    requires budget > 0
    ensures var c := ReadBatch(input, budget, 0);
      !c.atEnd ==> Batches(input, budget) == [c.batch] + Batches(c.rest, budget)
  {
  }

  /** Empty input still yields one batch, and it is empty. */
  lemma EmptyInputOneEmptyBatch(budget: int)
    requires budget > 0
    ensures Batches([], budget) == [[]]
  {
  }

  /** Only the last batch can be empty. */
  lemma OnlyLastBatchEmpty(input: seq<int>, budget: int)
    requires budget > 0
    ensures var bs := Batches(input, budget);
      forall j | 0 <= j < |bs| - 1 :: bs[j] != []
  {
  }

  /** Input whose whole text exactly fills one budget (the budget is reached
      on its last line and not before) yields that batch followed by a
      trailing empty batch, because the inner loop stops on the budget
      without seeing the end of the input. */
  lemma {:induction false} BoundaryInputTrailingEmptyBatch(input: seq<int>, budget: int)
    requires budget > 0
    requires BudgetFilled(input, budget)
    ensures Batches(input, budget) == [input, []]
  {
    var c := ReadBatch(input, budget, 0);
    assert c.rest == [] ==> c.batch == c.batch + c.rest == input;
    assert !c.atEnd;
    PrefixCut(input, budget, c.batch, c.rest);
    assert c.batch == input;
    assert c.rest == [];
    assert ReadBatch([], budget, 0) == Cut([], [], true);
  }

  /** Input whose text fits the budget is read as one batch; when it fills
      the budget exactly, the trailing empty batch follows. */
  lemma {:induction false} WithinBudgetBatches(input: seq<int>, budget: int)
    requires budget > 0 && Bytes(input) <= budget
    ensures Batches(input, budget) == if Bytes(input) < budget then [input] else [input, []]
  {
    if Bytes(input) == budget {
      var last := input[|input| - 1];
      assert input == input[..|input| - 1] + [last];
      BytesAppend(input[..|input| - 1], [last]);
      assert Bytes([last]) == LineBytes(last) + Bytes([]);
      BoundaryInputTrailingEmptyBatch(input, budget);
    } else {
      var c := ReadBatch(input, budget, 0);
      BytesAppend(c.batch, c.rest);
      assert c.atEnd;
      assert c.batch == c.batch + c.rest == input;
    }
  }

  /** `WithinBudgetBatches` by position: the first batch is the whole input
      and any other batch is empty. */
  lemma WithinBudgetShape(input: seq<int>, budget: int)
    requires budget > 0 && Bytes(input) <= budget
    ensures var bs := Batches(input, budget);
      && 1 <= |bs| <= 2 && bs[0] == input
      && forall s | 1 <= s < |bs| :: bs[s] == []
  {
    WithinBudgetBatches(input, budget);
  }

  /** A budget-filled batch cut off the front of the input is the shortest
      prefix reaching the budget, so it is the only one. */
  lemma {:induction false} PrefixCut(input: seq<int>, budget: int, batch: seq<int>, rest: seq<int>)
    requires batch + rest == input
    requires BudgetFilled(input, budget)
    requires BudgetFilled(batch, budget)
    ensures batch == input && rest == []
  {
    if |batch| < |input| {
      assert input[..|input| - 1] == batch + rest[..|rest| - 1];
      BytesAppend(batch, rest[..|rest| - 1]);
    } else {
      assert |rest| == 0;
    }
  }
}
