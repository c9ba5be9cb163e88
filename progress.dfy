/**
  The derived progress values of the task screen: the completion percentage of
  the selected category (app/tasks.tsx:1523-1532) and the number of filled
  blocks in its ten-block progress bar (app/tasks.tsx:1534-1537).

  The app computes `Math.round(completed / total * 100)` in double-precision
  floating point; here the quotient is exact and rounding is to the nearest
  integer with halves rounded up, which is what `Math.round` does on exact values.
 */
module Progress {
  import opened TaskList

  /** Number of blocks in the progress bar. */
  const Blocks: nat := 10

  /**
    `done` out of `total` as a whole percentage, 100 when there is nothing to do.
    For `total > 0` the result is the integer nearest to 100·done/total, a half rounding up.
   */
  function Percent(done: nat, total: nat): (p: nat)
    requires done <= total
    ensures p <= 100
    ensures total == 0 ==> p == 100
    ensures total > 0 ==> 2 * total * p <= 200 * done + total < 2 * total * p + 2 * total
  {
    if total == 0 then 100
    else
      var d := 2 * total;
      var p := (200 * done + total) / d;
      PercentBound(done, total, d, p);
      p
  }

  /** The rounded quotient lies within 0..100. */
  lemma PercentBound(done: nat, total: nat, d: nat, p: nat)
    requires 0 < total && done <= total && d == 2 * total && p == (200 * done + total) / d
    ensures p <= 100
  {
    assert d * p <= 200 * done + total;
    assert 200 * done + total < d * 101;
    MulCancel(d, p, 101);
  }

  /** Multiplying by a positive factor preserves strict order, so it can be cancelled. */
  lemma {:induction false} MulCancel(d: nat, x: nat, y: nat)
    requires d > 0 && d * x < d * y
    ensures x < y
  {
    if x >= y {
      MulMonotone(d, y, x);
    }
  }

  /** Multiplication by a natural number is monotone. */
  lemma {:induction false} MulMonotone(d: nat, x: nat, y: nat)
    requires x <= y
    ensures d * x <= d * y
  {
    if d > 0 {
      MulMonotone(d - 1, x, y);
      assert d * x == (d - 1) * x + x;
      assert d * y == (d - 1) * y + y;
    }
  }

  /** The completed tasks of a list. */
  function Completed(tasks: seq<Task>): (r: seq<Task>)
    ensures |r| <= |tasks|
    ensures forall t :: t in r <==> t in tasks && t.completed
    ensures forall t :: multiset(r)[t] == if t.completed then multiset(tasks)[t] else 0
    ensures IsSubsequence(r, tasks)
  {
    var keep := (t: Task) => t.completed;
    FilterMembers(tasks, keep);
    FilterCount(tasks, keep);
    FilterSubsequence(tasks, keep);
    Filter(tasks, keep)
  }

  /** getCompletionPercentage: the rounded share of completed tasks in `category`, 100 when it has none. */
  function CompletionPercentage(tasks: seq<Task>, category: string): (p: nat)
    ensures p <= 100
    ensures InCategory(tasks, category) == [] ==> p == 100
    ensures var shown := InCategory(tasks, category); var done := |Completed(shown)|;
      shown != [] ==> 2 * |shown| * p <= 200 * done + |shown| < 2 * |shown| * p + 2 * |shown|
  {
    var shown := InCategory(tasks, category);
    Percent(|Completed(shown)|, |shown|)
  }

  /** A category whose tasks are all completed shows 100%; a non-empty one with none completed shows 0%. */
  lemma CompletionExtremes(tasks: seq<Task>, category: string)
    ensures (forall t :: t in tasks && t.category == category ==> t.completed) ==>
              CompletionPercentage(tasks, category) == 100
    ensures (InCategory(tasks, category) != [] && forall t :: t in tasks && t.category == category ==> !t.completed) ==>
              CompletionPercentage(tasks, category) == 0
  {
    var shown := InCategory(tasks, category);
    AllOrNone(shown);
    if forall t :: t in tasks && t.category == category ==> t.completed {
      assert forall t :: t in shown ==> t.completed;
      PercentAll(|shown|);
    }
    if shown != [] && forall t :: t in tasks && t.category == category ==> !t.completed {
      assert forall t :: t in shown ==> !t.completed;
      PercentNone(|shown|);
    }
  }

  /** All done is 100%. */
  lemma PercentAll(n: nat)
    ensures Percent(n, n) == 100
  {
    if n > 0 {
      var p, d := Percent(n, n), 2 * n;
      assert d * 100 < d * p + d == d * (p + 1);
      MulCancel(d, 100, p + 1);
    }
  }

  /** None done out of a non-empty list is 0%. */
  lemma PercentNone(n: nat)
    requires n > 0
    ensures Percent(0, n) == 0
  {
    var p, d := Percent(0, n), 2 * n;
    if p > 0 {
      MulMonotone(d, 1, p);
    }
  }

  /** A list all of whose tasks are completed is its own completed part; one with none completed has none. */
  lemma AllOrNone(tasks: seq<Task>)
    ensures (forall t :: t in tasks ==> t.completed) ==> |Completed(tasks)| == |tasks|
    ensures (forall t :: t in tasks ==> !t.completed) ==> Completed(tasks) == []
  {
    if forall t :: t in tasks ==> t.completed {
      FilterKeepsAll(tasks, (t: Task) => t.completed);
    }
    if (forall t :: t in tasks ==> !t.completed) && Completed(tasks) != [] {
      assert Completed(tasks)[0] in Completed(tasks);
    }
  }

  /** `Math.round(percentage / 100 * blocks)`: the nearest whole number of blocks, a half rounding up. */
  function FilledBlocks(percentage: nat): (b: nat)
    requires percentage <= 100
    ensures b <= Blocks
    ensures 10 * b <= percentage + 5 < 10 * b + 10
    ensures b == Blocks <==> percentage >= 95
    ensures b == 0 <==> percentage < 5
  {
    (percentage + 5) / 10
  }

  /** One of three tasks done shows 33%, two of three 67%, and an empty category 100%. */
  lemma PercentExamples()
    ensures Percent(1, 3) == 33 && Percent(2, 3) == 67 && Percent(0, 0) == 100
    ensures FilledBlocks(33) == 3 && FilledBlocks(67) == 7 && FilledBlocks(100) == 10
  {
  }

  /** More completed tasks never lower the percentage. */
  lemma PercentMonotone(done: nat, more: nat, total: nat)
    requires done <= more <= total
    ensures Percent(done, total) <= Percent(more, total)
  {
    if total > 0 {
      var p, q := Percent(done, total), Percent(more, total);
      var d := 2 * total;
      assert d * p <= 200 * done + total <= 200 * more + total < d * q + d;
      assert d * q + d == d * (q + 1);
      MulCancel(d, p, q + 1);
    }
  }
}
