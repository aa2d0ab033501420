// externals/catch/catch.hpp, lines 10018-10051: the coloured bar under a test run, 79 columns wide.
module ResultBar {
  const WIDTH := 80
  const SIZE_T := 0x1_0000_0000_0000_0000

  datatype Colour = Error | ResultExpectedFailure | ResultSuccess | Success | Warning

  /** So many '=' in one colour. */
  datatype Run = Run(colour: Colour, columns: nat)

  datatype Category = Failed | FailedButOk | Passed

  /** Columns, or counts, of the three categories. */
  datatype Three = Three(failed: nat, failedButOk: nat, passed: nat)
  {
    function Sum(): nat {
      failed + failedButOk + passed
    }

    function Of(c: Category): nat {
      match c
      case Failed => failed
      case FailedButOk => failedButOk
      case Passed => passed
    }
  }

  /** Lines 10018-10021; the product is taken modulo 2^64. */
  function MakeRatio(number: nat, total: nat): nat {
    var ratio := if total > 0 then WIDTH * number % SIZE_T / total else 0;
    if ratio == 0 && number > 0 then 1 else ratio
  }

  predicate IsAfter(d: Category, c: Category) {
    (c == Failed && d != Failed) || (c == FailedButOk && d == Passed)
  }

  /** Lines 10022-10029: of the largest, the last. */
  function FindMax(t: Three): (c: Category)
    ensures forall d: Category :: t.Of(d) <= t.Of(c) && (IsAfter(d, c) ==> t.Of(d) < t.Of(c))
  {
    if t.failed > t.failedButOk && t.failed > t.passed then Failed
    else if t.failedButOk > t.passed then FailedButOk
    else Passed
  }

  function Changed(t: Three, c: Category, delta: int): (r: Three)
    requires t.Of(c) + delta >= 0
    ensures r.Sum() == t.Sum() + delta
    ensures forall d: Category :: r.Of(d) == t.Of(d) + if d == c then delta else 0
  {
    match c
    case Failed => t.(failed := t.failed + delta)
    case FailedButOk => t.(failedButOk := t.failedButOk + delta)
    case Passed => t.(passed := t.passed + delta)
  }

  /** The columns before any adjustment. */
  function Ratios(counts: Three): Three {
    Three(MakeRatio(counts.failed, counts.Sum()), MakeRatio(counts.failedButOk, counts.Sum()),
        MakeRatio(counts.passed, counts.Sum()))
  }

  // ----- bounds on the ratios -----

  lemma Times(b: nat, d: int, least: int)
    ensures d >= least ==> b * d >= b * least
    ensures d <= least ==> b * d <= b * least
  {
    assert b * d == b * least + b * (d - least);
  }

  /** A quotient lies within one below the exact ratio. */
  lemma Quotient(a: nat, b: nat)
    requires b > 0
    ensures b * (a / b) <= a < b * (a / b) + b
  {
  }

  lemma Bounded(a: nat, b: nat, limit: nat)
    requires b > 0 && a < limit * b
    ensures a / b < limit
  {
    Quotient(a, b);
    Times(b, a / b, limit);
  }

  /** A ratio has at most 80 columns, and none exactly for a count of zero. */
  lemma RatioBounds(number: nat, total: nat)
    requires number <= total && 0 < total < SIZE_T
    ensures MakeRatio(number, total) <= WIDTH
    ensures MakeRatio(number, total) == 0 <==> number == 0
  {
    assert WIDTH * number % SIZE_T <= WIDTH * number;
    Bounded(WIDTH * number % SIZE_T, total, WIDTH + 1);
  }

  /** Without overflow, three ratios of a whole come to 78 to 81 columns. */
  lemma RatiosNearWidth(counts: Three)
    requires counts.Sum() > 0 && WIDTH * counts.Sum() < SIZE_T
    ensures WIDTH - 2 <= Ratios(counts).Sum() <= WIDTH + 1
  {
    hide MakeRatio;
    var total := counts.Sum();
    var x := Share(counts.failed, total);
    var y := Share(counts.failedButOk, total);
    var z := Share(counts.passed, total);
    Rounding(x, y, z, total, WIDTH * counts.failed, WIDTH * counts.failedButOk, WIDTH * counts.passed);
  }

  /** The columns of a category before the bump from zero to one. */
  lemma Share(number: nat, total: nat) returns (q: nat)
    requires total > 0 && WIDTH * number < SIZE_T
    ensures total * q <= WIDTH * number < total * q + total
    ensures MakeRatio(number, total) == q || (MakeRatio(number, total) == 1 && q == 0 && total * q < WIDTH * number)
  {
    q := WIDTH * number / total;
    Quotient(WIDTH * number, total);
  }

  /** Three quotients of parts lose at most two columns; they lose one if any part is rounded down. */
  lemma Rounding(x: nat, y: nat, z: nat, total: nat, a: nat, b: nat, c: nat)
    requires total > 0 && a + b + c == WIDTH * total
    requires total * x <= a < total * x + total && total * y <= b < total * y + total && total * z <= c < total * z
        + total
    ensures WIDTH - 2 <= x + y + z <= WIDTH
    ensures total * x < a || total * y < b || total * z < c ==> x + y + z < WIDTH
  {
    var s := x + y + z;
    assert total * s == total * x + total * y + total * z;
    assert total * (s + 3) == total * s + 3 * total;
    Times(total, s, WIDTH);
    Times(total, s, WIDTH + 1);
    Times(total, s + 3, WIDTH);
  }

  // ----- the bar -----

  /** A category gets no columns exactly if it counts nothing. */
  ghost predicate Fair(counts: Three, columns: Three) {
    forall c: Category :: columns.Of(c) == 0 <==> counts.Of(c) == 0
  }

  ghost predicate Within(start: Three, columns: Three, steps: nat) {
    forall c: Category :: start.Of(c) - steps <= columns.Of(c) <= start.Of(c) + steps
  }

  /** Only categories that are among the largest, give or take the steps, have changed. */
  ghost predicate OnlyLargest(start: Three, columns: Three, steps: nat) {
    forall c: Category, d: Category :: columns.Of(c) != start.Of(c) ==> start.Of(d) <= start.Of(c) + 2 * steps
  }

  lemma LargestChanges(start: Three, columns: Three, largest: Category, steps: nat, delta: int)
    requires Within(start, columns, steps) && OnlyLargest(start, columns, steps)
    requires columns.Of(largest) + delta >= 0 && forall d: Category :: columns.Of(d) <= columns.Of(largest)
    ensures OnlyLargest(start, Changed(columns, largest, delta), steps + 1)
  {
    hide Changed, Three.Of;
    var next := Changed(columns, largest, delta);
    forall c: Category, d: Category | next.Of(c) != start.Of(c) ensures start.Of(d) <= start.Of(c) + 2 * (steps + 1) {
      if c == largest {
        assert start.Of(d) - steps <= columns.Of(d) <= columns.Of(largest) <= start.Of(largest) + steps;
      } else {
        assert columns.Of(c) == next.Of(c);
      }
    }
  }

  /** Moving the largest category by one column keeps the others and never empties it. */
  lemma OneStep(counts: Three, start: Three, columns: Three, steps: nat, delta: int)
    requires counts.Sum() > 0 && Fair(counts, columns) && Within(start, columns, steps)
    requires OnlyLargest(start, columns, steps)
    requires delta == 1 || (delta == -1 && columns.Sum() >= 4)
    ensures columns.Of(FindMax(columns)) + delta >= 0
    ensures var next := Changed(columns, FindMax(columns), delta);
            && Fair(counts, next) && Within(start, next, steps + 1) && OnlyLargest(start, next, steps + 1)
            && next.Sum() == columns.Sum() + delta
  {
    var largest := FindMax(columns);
    hide OnlyLargest;
    assert columns.Of(Failed) <= columns.Of(largest);
    assert columns.Of(FailedButOk) <= columns.Of(largest);
    assert columns.Of(Passed) <= columns.Of(largest);
    assert columns.Of(largest) >= 1 by {
      assert columns.Of(Failed) == 0 <==> counts.Of(Failed) == 0;
      assert columns.Of(FailedButOk) == 0 <==> counts.Of(FailedButOk) == 0;
      assert columns.Of(Passed) == 0 <==> counts.Of(Passed) == 0;
    }
    LargestChanges(start, columns, largest, steps, delta);
  }

  lemma RatiosAreFair(counts: Three)
    requires 0 < counts.Sum() < SIZE_T
    ensures Fair(counts, Ratios(counts)) && Within(Ratios(counts), Ratios(counts), 0)
    ensures OnlyLargest(Ratios(counts), Ratios(counts), 0)
  {
    RatioBounds(counts.failed, counts.Sum());
    RatioBounds(counts.failedButOk, counts.Sum());
    RatioBounds(counts.passed, counts.Sum());
  }

  /** Lines 10033-10039: the columns of the three categories. For every count whose total does not wrap,
      they fill the line, and a category gets none exactly if it counts nothing; only the largest are
      adjusted, and two steps are enough unless the product overflows. */
  method Columns(counts: Three) returns (columns: Three, ghost steps: nat)
    requires 0 < counts.Sum() < SIZE_T
    ensures columns.Sum() == WIDTH - 1 && Fair(counts, columns)
    ensures WIDTH * counts.Sum() < SIZE_T ==> steps <= 2
    ensures Within(Ratios(counts), columns, steps) && OnlyLargest(Ratios(counts), columns, steps)
  {
    hide MakeRatio, Changed, FindMax, Fair, Within, OnlyLargest, Three.Sum, Ratios;
    RatiosAreFair(counts);
    if WIDTH * counts.Sum() < SIZE_T {
      RatiosNearWidth(counts);
    }
    columns := Ratios(counts);
    ghost var start := columns;
    steps := 0;
    while columns.Sum() < WIDTH - 1
      invariant columns.Sum() == start.Sum() + steps && (steps == 0 || columns.Sum() <= WIDTH - 1)
      invariant Fair(counts, columns) && Within(start, columns, steps) && OnlyLargest(start, columns, steps)
      decreases WIDTH - columns.Sum()
    {
      OneStep(counts, start, columns, steps, 1);
      columns, steps := Changed(columns, FindMax(columns), 1), steps + 1;
    }
    while columns.Sum() > WIDTH - 1
      invariant columns.Sum() >= WIDTH - 1
      invariant columns.Sum() == if start.Sum() < WIDTH - 1 then start.Sum() + steps else start.Sum() - steps
      invariant Fair(counts, columns) && Within(start, columns, steps) && OnlyLargest(start, columns, steps)
      decreases columns.Sum()
    {
      OneStep(counts, start, columns, steps, -1);
      columns, steps := Changed(columns, FindMax(columns), -1), steps + 1;
    }
  }

  function Width(runs: seq<Run>): nat {
    if runs == [] then 0 else runs[0].columns + Width(runs[1..])
  }

  /** The columns are less than three away from the exact share of the line. */
  predicate IsNear(columns: nat, count: nat, total: nat) {
    total * (columns - 3) <= WIDTH * count < total * (columns + 3)
  }

  lemma ShareIsNear(count: nat, total: nat, columns: nat)
    requires total > 0 && WIDTH * count < SIZE_T
    requires MakeRatio(count, total) - 2 <= columns <= MakeRatio(count, total) + 2
    ensures IsNear(columns, count, total)
  {
    hide MakeRatio;
    var q := Share(count, total);
    Times(total, columns - 3, q);
    Times(total, columns + 3, q + 1);
  }

  lemma ColumnsAreNear(counts: Three, columns: Three, steps: nat)
    requires counts.Sum() > 0 && WIDTH * counts.Sum() < SIZE_T && steps <= 2 && Within(Ratios(counts), columns, steps)
    ensures IsNear(columns.failed, counts.failed, counts.Sum())
    ensures IsNear(columns.failedButOk, counts.failedButOk, counts.Sum())
    ensures IsNear(columns.passed, counts.passed, counts.Sum())
  {
    hide MakeRatio, IsNear;
    var start := Ratios(counts);
    forall c: Category ensures IsNear(columns.Of(c), counts.Of(c), counts.Sum()) {
      assert start.Of(c) == MakeRatio(counts.Of(c), counts.Sum());
      assert start.Of(c) - steps <= columns.Of(c) <= start.Of(c) + steps;
      ShareIsNear(counts.Of(c), counts.Sum(), columns.Of(c));
    }
    assert columns.Of(Failed) == columns.failed && columns.Of(FailedButOk) == columns.failedButOk;
    assert columns.Of(Passed) == columns.passed;
  }

  /** Lines 10031-10051: the line is always 79 columns wide. With anything counted it shows, in this order, what failed,
      what failed as expected and what passed, each in its colour, in none of the columns exactly if there was none,
      and in columns near its share unless the product overflows. */
  method PrintTotalsDivider(counts: Three) returns (line: seq<Run>)
    requires counts.Sum() < SIZE_T
    ensures Width(line) == WIDTH - 1
    ensures counts.Sum() == 0 ==> line == [Run(Warning, WIDTH - 1)]
    ensures counts.Sum() > 0 ==>
              && |line| == 3 && line[0].colour == Error && line[1].colour == ResultExpectedFailure
              && line[2].colour == (if counts.failed == 0 && counts.failedButOk == 0 then ResultSuccess else Success)
              && (line[0].columns == 0 <==> counts.failed == 0) && (line[1].columns == 0 <==> counts.failedButOk == 0)
              && (line[2].columns == 0 <==> counts.passed == 0)
    ensures 0 < counts.Sum() && WIDTH * counts.Sum() < SIZE_T ==>
              && IsNear(line[0].columns, counts.failed, counts.Sum())
              && IsNear(line[1].columns, counts.failedButOk, counts.Sum())
              && IsNear(line[2].columns, counts.passed, counts.Sum())
  {
    hide MakeRatio, IsNear, Ratios, Within, OnlyLargest, Width, Fair, Three.Of;
    if counts.Sum() > 0 {
      var columns, steps := Columns(counts);
      if WIDTH * counts.Sum() < SIZE_T {
        ColumnsAreNear(counts, columns, steps);
      }
      InEachCategory(counts, columns);
      var passedColour := if counts.failed == 0 && counts.failedButOk == 0 then ResultSuccess else Success;
      line := [Run(Error, columns.failed), Run(ResultExpectedFailure, columns.failedButOk),
          Run(passedColour, columns.passed)];
      WidthOfThree(line[0], line[1], line[2]);
    } else {
      line := [Run(Warning, WIDTH - 1)];
      WidthOfOne(line[0]);
    }
  }

  lemma WidthOfOne(r: Run)
    ensures Width([r]) == r.columns
  {
  }

  lemma WidthOfThree(a: Run, b: Run, c: Run)
    ensures Width([a, b, c]) == a.columns + b.columns + c.columns
  {
    assert [a, b, c][1..] == [b, c] && [b, c][1..] == [c];
    WidthOfOne(c);
  }

  lemma InEachCategory(counts: Three, columns: Three)
    requires Fair(counts, columns)
    ensures (columns.failed == 0 <==> counts.failed == 0) && (columns.failedButOk == 0 <==> counts.failedButOk == 0)
    ensures columns.passed == 0 <==> counts.passed == 0
  {
    assert columns.Of(Failed) == 0 <==> counts.Of(Failed) == 0;
    assert columns.Of(FailedButOk) == 0 <==> counts.Of(FailedButOk) == 0;
    assert columns.Of(Passed) == 0 <==> counts.Of(Passed) == 0;
  }
}
