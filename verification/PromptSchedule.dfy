// Spreading prompt changes evenly over the cycles of a soak.

module PromptSchedule {
  import opened Rounding

  function Clamp(cycles: int, x: int): int {
    var low := if x > 1 then x else 1;
    if cycles < low then cycles else low
  }

  /** The k-th scheduled cycle before clamping: round(k * cycles / changes). */
  function Point(cycles: int, changes: int, k: int): int
    requires changes > 0
  {
    HalfEven(k * cycles, changes)
  }

  ghost function Points(cycles: int, changes: int, k: nat): set<int>
    requires changes > 0
  {
    set i | 1 <= i <= k :: Point(cycles, changes, i)
  }

  /** The distance from the k-th point to the next. */
  function Gap(cycles: int, changes: int, k: int): int
    requires changes > 0
  {
    Point(cycles, changes, k + 1) - Point(cycles, changes, k)
  }

  /** The floor of cycles / changes or, when that is not whole, its ceiling. */
  predicate FloorOrCeiling(cycles: int, changes: int, gap: int)
    requires changes > 0
  {
    gap == cycles / changes || (cycles % changes != 0 && gap == cycles / changes + 1)
  }

  lemma WholeStep(m: int, q: int, k: int)
    requires m > 0
    ensures HalfEven(k * (m * q), m) == k * q
  {
    assert k * (m * q) == m * (k * q);
    HalfEvenExact(k * q, m);
  }

  /** A point is a cycle nearest to k times the ratio, and of two that are equally near the even one. */
  lemma PointNear(cycles: int, changes: int, k: int)
    requires changes > 0
    ensures 2 * (k * cycles) - changes <= 2 * (changes * Point(cycles, changes, k)) <= 2 * (k * cycles) + changes
    ensures 2 * (changes * Point(cycles, changes, k)) == 2 * (k * cycles) - changes
         || 2 * (changes * Point(cycles, changes, k)) == 2 * (k * cycles) + changes
      ==> Point(cycles, changes, k) % 2 == 0
  {
    HalfEvenNearest(k * cycles, changes);
  }

  lemma FractionalGap(n: int, m: int, k: int, h: int, j: int)
    requires m > 0 && n % m != 0
    requires 2 * (k * n) - m <= 2 * (m * h) <= 2 * (k * n) + m
    requires 2 * ((k + 1) * n) - m <= 2 * (m * j) <= 2 * ((k + 1) * n) + m
    ensures FloorOrCeiling(n, m, j - h)
  {
    assert (k + 1) * n == k * n + n;
    GapBounds(m, n / m, n % m, n, h, j);
  }

  lemma WholeGap(n: int, m: int, k: int)
    requires m > 0 && n % m == 0
    ensures Gap(n, m, k) == n / m
  {
    var q := n / m;
    assert n == m * q;
    WholeStep(m, q, k);
    WholeStep(m, q, k + 1);
    assert (k + 1) * q == k * q + q;
  }

  // Adding one more step of cycles / changes moves the rounded point by the
  // floor or the ceiling of that step.
  lemma GapIsFloorOrCeiling(cycles: int, changes: int, k: int)
    requires changes > 0
    ensures FloorOrCeiling(cycles, changes, Gap(cycles, changes, k))
  {
    if cycles % changes == 0 {
      WholeGap(cycles, changes, k);
    } else {
      PointNear(cycles, changes, k);
      PointNear(cycles, changes, k + 1);
      FractionalGap(cycles, changes, k, Point(cycles, changes, k), Point(cycles, changes, k + 1));
    }
  }

  lemma GapBounds(m: int, q: int, r: int, n: int, h: int, j: int)
    requires m > 0 && 0 < r < m && n == m * q + r
    requires n - m <= m * j - m * h <= n + m
    ensures q <= j - h <= q + 1
  {
    var d := j - h;
    assert m * d == m * j - m * h;
    assert m * (q - 1) == m * q - m && m * (q + 2) == m * q + 2 * m;
    LtCancel(m, q - 1, d);
    LtCancel(m, d, q + 2);
  }

  lemma PointEnds(cycles: int, changes: int)
    requires changes > 0
    ensures Point(cycles, changes, 0) == 0 && Point(cycles, changes, changes) == cycles
  {
    HalfEvenExact(0, changes);
    HalfEvenExact(cycles, changes);
  }

  lemma StepIsPositive(cycles: int, changes: int, k: int)
    requires 1 <= changes < cycles
    ensures Gap(cycles, changes, k) >= 1
  {
    GapIsFloorOrCeiling(cycles, changes, k);
    QuotientPositive(cycles, changes);
  }

  lemma QuotientPositive(a: int, b: int)
    requires 1 <= b <= a
    ensures a / b >= 1
  {}

  lemma {:induction false} PointGrows(cycles: int, changes: int, k: nat)
    requires 1 <= changes < cycles
    ensures Point(cycles, changes, k) >= k
  {
    if k == 0 {
      PointEnds(cycles, changes);
    } else {
      PointGrows(cycles, changes, k - 1);
      StepIsPositive(cycles, changes, k - 1);
    }
  }

  lemma PointBounds(cycles: int, changes: int, k: nat)
    requires 1 <= changes < cycles && k <= changes
    ensures k <= Point(cycles, changes, k) <= cycles
  {
    PointGrows(cycles, changes, k);
    PointEnds(cycles, changes);
    MulMonotone(k, changes, cycles);
    HalfEvenMonotone(k * cycles, changes * cycles, changes);
  }

  lemma MulMonotone(a: int, b: int, c: int)
    requires a <= b && c > 0
    ensures a * c <= b * c
  {
    assert (b - a) * c >= 0;
  }

  /** Later points are strictly later cycles. */
  lemma {:induction false} PointsIncrease(cycles: int, changes: int, i: nat, j: nat)
    requires 1 <= changes < cycles && i < j
    ensures Point(cycles, changes, i) < Point(cycles, changes, j)
    decreases j
  {
    StepIsPositive(cycles, changes, j - 1);
    if i < j - 1 {
      PointsIncrease(cycles, changes, i, j - 1);
    }
  }

  lemma {:induction false} PointsCount(cycles: int, changes: int, k: nat)
    requires 1 <= changes < cycles
    ensures |Points(cycles, changes, k)| == k
  {
    if k > 0 {
      PointsCount(cycles, changes, k - 1);
      var p := Point(cycles, changes, k);
      forall i | 1 <= i <= k - 1 ensures Point(cycles, changes, i) != p {
        PointsIncrease(cycles, changes, i, k);
      }
      PointsStep(cycles, changes, k);
    }
  }

  /** `set(range(1, n + 1))`. */
  function Range(n: int): (s: set<int>)
    ensures forall x :: x in s <==> 1 <= x <= n
    ensures |s| == if n > 0 then n else 0
    decreases n
  {
    if n <= 0 then {} else Range(n - 1) + {n}
  }

  // cycles / float(0) raises.
  datatype Result = Scheduled(at: set<int>) | ZeroDivision

  /** The cycle added for one index: the rounded point clamped into [1, cycles]. */
  function Rounded(cycles: int, changes: int, k: int): int
    requires changes > 0
  {
    Clamp(cycles, Point(cycles, changes, k))
  }

  ghost function RoundedSet(cycles: int, changes: int, k: nat): (s: set<int>)
    requires changes > 0
    ensures |s| <= k
  {
    if k == 0 then {}
    else
      GrowByOne(RoundedSet(cycles, changes, k - 1), Rounded(cycles, changes, k));
      RoundedSet(cycles, changes, k - 1) + {Rounded(cycles, changes, k)}
  }

  /** The fill loop: add cycles from the first until there are enough. */
  method Fill(rounded: set<int>, cycles: int, changes: int) returns (out: set<int>)
    requires 0 <= changes < cycles && |rounded| <= changes
    ensures rounded <= out && |out| == changes
  {
    out := rounded;
    while |out| < changes
      invariant rounded <= out && |out| <= changes
      decreases changes - |out|
    {
      ghost var start := out;
      var cycle := 1;
      while cycle <= cycles
        invariant 1 <= cycle <= cycles + 1
        invariant start <= out && |out| < changes
        invariant Range(cycle - 1) <= out
      {
        GrowByOne(out, cycle);
        out := out + {cycle};
        if |out| >= changes {
          break;
        }
        cycle := cycle + 1;
      }
      if |out| < changes {
        SubsetSize(Range(cycles), out);
        assert false;
      }
    }
  }

  /** `_prompt_schedule`. */
  method Schedule(cycles: int, changes: int) returns (r: Result)
    ensures r.ZeroDivision? <==> changes == 0 < cycles
    ensures changes >= cycles ==> r == Scheduled(Range(cycles))
    ensures changes < cycles && changes < 0 ==> r == Scheduled({})
    // the rounded points are distinct and already in range: the fill loop adds nothing
    ensures 1 <= changes < cycles ==> r == Scheduled(Points(cycles, changes, changes))
  {
    if changes >= cycles {
      return Scheduled(Range(cycles));
    }
    if changes == 0 {
      return ZeroDivision;
    }
    var out := RoundAll(cycles, changes);
    if changes > 0 {
      out := Fill(out, cycles, changes);
      FillAddsNothing(cycles, changes, out);
    }
    r := Scheduled(out);
  }

  /** The rounding loop. */
  method RoundAll(cycles: int, changes: int) returns (out: set<int>)
    requires changes != 0
    ensures out == if changes > 0 then RoundedSet(cycles, changes, changes) else {}
  {
    out := {};
    var index := 1;
    while index <= changes
      invariant 1 <= index <= (if changes > 0 then changes + 1 else 1)
      invariant out == if changes > 0 then RoundedSet(cycles, changes, index - 1) else {}
    {
      out := out + {Rounded(cycles, changes, index)};
      index := index + 1;
    }
  }

  lemma FillAddsNothing(cycles: int, changes: int, out: set<int>)
    requires 1 <= changes < cycles && RoundedSet(cycles, changes, changes) <= out && |out| == changes
    ensures out == Points(cycles, changes, changes)
  {
    PointsAreRounded(cycles, changes, changes);
    PointsCount(cycles, changes, changes);
    EqualBySize(Points(cycles, changes, changes), out);
  }

  lemma GrowByOne(s: set<int>, x: int)
    ensures |s| <= |s + {x}| <= |s| + 1
  {
    if x in s {
      assert s + {x} == s;
    }
  }

  lemma SubsetSize(a: set<int>, b: set<int>)
    requires a <= b
    ensures |a| <= |b|
  {
    assert b == a + (b - a);
  }

  lemma EqualBySize(a: set<int>, b: set<int>)
    requires a <= b && |b| <= |a|
    ensures a == b
  {
    assert b == a + (b - a);
  }

  lemma PointsStep(cycles: int, changes: int, k: nat)
    requires changes > 0 && k > 0
    ensures Points(cycles, changes, k) == Points(cycles, changes, k - 1) + {Point(cycles, changes, k)}
  {}

  lemma RoundedIsPoint(cycles: int, changes: int, k: nat)
    requires 1 <= changes < cycles && 1 <= k <= changes
    ensures Rounded(cycles, changes, k) == Point(cycles, changes, k)
  {
    PointBounds(cycles, changes, k);
  }

  lemma {:induction false} PointsAreRounded(cycles: int, changes: int, k: nat)
    requires 1 <= changes < cycles && k <= changes
    ensures RoundedSet(cycles, changes, k) == Points(cycles, changes, k)
  {
    if k > 0 {
      PointsAreRounded(cycles, changes, k - 1);
      RoundedIsPoint(cycles, changes, k);
      PointsStep(cycles, changes, k);
    }
  }

  /** The schedule is exact: so many distinct cycles, all in range, the last one included, and evenly spaced. */
  lemma ScheduleIsExactAndEven(cycles: int, changes: int)
    requires 1 <= changes < cycles
    ensures var s := Points(cycles, changes, changes);
      && |s| == changes && cycles in s && (forall c :: c in s ==> 1 <= c <= cycles)
    ensures Point(cycles, changes, 0) == 0 && Point(cycles, changes, changes) == cycles
    ensures forall k :: 0 <= k < changes ==>
      Gap(cycles, changes, k) > 0 && FloorOrCeiling(cycles, changes, Gap(cycles, changes, k))
  {
    PointsCount(cycles, changes, changes);
    PointEnds(cycles, changes);
    assert Point(cycles, changes, changes) in Points(cycles, changes, changes);
    forall c | c in Points(cycles, changes, changes) ensures 1 <= c <= cycles {
      var k :| 1 <= k <= changes && c == Point(cycles, changes, k);
      PointBounds(cycles, changes, k);
    }
    forall k | 0 <= k < changes
      ensures Gap(cycles, changes, k) > 0 && FloorOrCeiling(cycles, changes, Gap(cycles, changes, k))
    {
      GapIsFloorOrCeiling(cycles, changes, k);
      StepIsPositive(cycles, changes, k);
    }
  }
}
