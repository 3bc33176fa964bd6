/** The density report's exact arithmetic: which workloads to sample, and how
    many fit the memory limit. */
module Density {
  import opened Text
  import opened Common

  const U128_MAX: nat := 0xFFFF_FFFF_FFFF_FFFF_FFFF_FFFF_FFFF_FFFF

  // ------------------------------------------------------------- sampling

  lemma MulGrows(a: int, b: int, m: int)
    requires a <= b && m >= 0
    ensures a * m <= b * m
  {
  }

  function Position(i: nat, d: nat, m: nat): nat
    requires m > 0
  {
    MulGrows(0, i, d);
    (i * d) / m
  }

  /** Positions spanning the oldest and the newest workload. */
  function Spread(count: nat, requested: nat): (s: seq<nat>)
    ensures |s| == Min(requested, count)
  {
    var n := Min(requested, count);
    if n == 0 then []
    else if n == 1 then [count - 1]
    else seq(n, i requires 0 <= i < n => Position(i, count - 1, n - 1))
  }

  lemma DivIs(x: int, m: int, q: int, r: int)
    requires m > 0 && x == m * q + r && 0 <= r < m
    ensures x / m == q
  {
    QuotientsAgree(m, q, r, x / m, x % m);
  }

  lemma QuotientsAgree(m: int, q: int, r: int, p: int, s: int)
    requires m > 0 && m * q + r == m * p + s && 0 <= r < m && 0 <= s < m
    ensures q == p
  {
    if q > p {
      MulGrows(p + 1, q, m);
    } else if q < p {
      MulGrows(q + 1, p, m);
    }
  }

  /** Adding `d` moves a quotient by `d / m`, or by one more. */
  lemma DivStep(a: nat, d: nat, m: nat)
    requires m > 0
    ensures (a + d) / m - a / m in {d / m, d / m + 1}
  {
    var r := a % m + d % m;
    assert a + d == m * (a / m + d / m) + r by {
      assert a == m * (a / m) + a % m && d == m * (d / m) + d % m;
      assert m * (a / m + d / m) == m * (a / m) + m * (d / m);
    }
    if r < m {
      DivIs(a + d, m, a / m + d / m, r);
    } else {
      assert m * (a / m + d / m + 1) == m * (a / m + d / m) + m;
      DivIs(a + d, m, a / m + d / m + 1, r - m);
    }
  }

  lemma DivMul(m: nat, d: nat)
    requires m > 0
    ensures (m * d) / m == d && 0 / m == 0
  {
    DivIs(m * d, m, d, 0);
    DivIs(0, m, 0, 0);
  }

  /** One gap between neighbouring sampled positions. */
  lemma PositionGap(i: nat, d: nat, m: nat)
    requires 0 < m <= d
    ensures Position(i + 1, d, m) - Position(i, d, m) in {d / m, d / m + 1} && d / m >= 1
  {
    MulGrows(0, i, d);
    assert (i + 1) * d == i * d + d;
    DivStep(i * d, d, m);
    DivStep(d - m, m, m);
    DivIs(m, m, 1, 0);
  }

  lemma {:induction false} GapsAscend(s: seq<nat>, i: nat, j: nat)
    requires i < j < |s| && forall k: nat | k + 1 < |s| :: s[k] < s[k + 1]
    ensures s[i] < s[j]
  {
    if i + 1 < j {
      GapsAscend(s, i, j - 1);
      assert s[j - 1] < s[j - 1 + 1];
    }
  }

  lemma SpreadGap(count: nat, requested: nat, s: seq<nat>, k: nat)
    requires s == Spread(count, requested) && k + 1 < |s|
    ensures s[k + 1] == s[k] + (count - 1) / (|s| - 1) || s[k + 1] == s[k] + (count - 1) / (|s| - 1) + 1
    ensures s[k] < s[k + 1]
  {
    PositionGap(k, count - 1, |s| - 1);
  }

  lemma SpreadEnds(count: nat, requested: nat)
    requires Min(requested, count) >= 1
    ensures var s, n := Spread(count, requested), Min(requested, count);
            s[n - 1] == count - 1 && (n >= 2 ==> s[0] == 0)
  {
    var n := Min(requested, count);
    if n >= 2 {
      DivMul(n - 1, count - 1);
    }
  }

  /** For every count and request: as many positions as asked for, up to all of
      them; distinct and ascending; ending at the newest workload, and starting
      at the oldest when there are two or more. */
  lemma SpreadSpans(count: nat, requested: nat)
    ensures var s, n := Spread(count, requested), Min(requested, count);
            && |s| == n && Ascending(s)
            && (forall i | 0 <= i < n :: s[i] < count)
            && (n >= 1 ==> s[n - 1] == count - 1)
            && (n >= 2 ==> s[0] == 0)
  {
    var s, n := Spread(count, requested), Min(requested, count);
    if n >= 1 {
      SpreadEnds(count, requested);
      forall k: nat | k + 1 < n ensures s[k] < s[k + 1] {
        SpreadGap(count, requested, s, k);
      }
      forall i: nat, j: nat | i < j < n ensures s[i] < s[j] {
        GapsAscend(s, i, j);
      }
    }
  }

  /** Any two gaps between neighbours differ by at most one. */
  lemma SpreadIsEven(count: nat, requested: nat, s: seq<nat>, i: nat, j: nat)
    requires s == Spread(count, requested) && i + 1 < |s| && j + 1 < |s|
    ensures s[i + 1] + s[j] <= s[i] + s[j + 1] + 1
  {
    SpreadGap(count, requested, s, i);
    SpreadGap(count, requested, s, j);
  }

  /** The products fit 128 bits, and the positions 64. */
  lemma SpreadFits(count: nat, requested: nat, i: nat)
    requires count <= U64_MAX && i < Min(requested, count)
    ensures i * (count - 1) <= U128_MAX && Spread(count, requested)[i] <= U64_MAX
  {
    SpreadSpans(count, requested);
    MulGrows(i, U64_MAX, count - 1);
  }

  /** The workloads at those positions. */
  function Sample(running: seq<nat>, requested: nat): seq<nat> {
    SpreadSpans(|running|, requested);
    var positions := Spread(|running|, requested);
    seq(|positions|, i requires 0 <= i < |positions| => running[positions[i]])
  }

  /** Distinct workloads, all running, as many as requested if there are so many,
      and always with the newest. */
  ghost predicate Represents(sample: seq<nat>, running: seq<nat>, requested: nat) {
    && |sample| == Min(requested, |running|) && Ascending(sample)
    && (forall i | 0 <= i < |sample| :: sample[i] in running)
    && (sample != [] ==> sample[|sample| - 1] == running[|running| - 1])
  }

  lemma SampleIsOfRunning(running: seq<nat>, requested: nat)
    requires Ascending(running)
    ensures Represents(Sample(running, requested), running, requested)
  {
    SpreadSpans(|running|, requested);
  }

  // ---------------------------------------------------------- the estimate

  datatype Step = Step(workloads: nat, footprint: Option<nat>, clean: bool)

  /** The clean steps with a reading: workload counts with footprints. */
  function Readings(steps: seq<Step>): seq<(nat, nat)> {
    if steps == [] then []
    else
      var n := |steps| - 1;
      var s := steps[n];
      Readings(steps[..n]) + if s.clean && s.workloads > 0 && s.footprint.Some? then [(s.workloads, s.footprint.value)] else []
  }

  function SaturatingSub(a: nat, b: nat): nat {
    if a < b then 0 else a - b
  }

  /** Division of signed numbers as Rust does it, toward zero. */
  function TruncatingDiv(a: int, b: int): int
    requires b > 0
  {
    if a >= 0 then a / b else -((-a) / b)
  }

  /** The cast of a non-negative number to 64 bits. */
  function AsU64(n: nat): nat {
    n % (U64_MAX + 1)
  }

  /** What a workload costs, from the first and the last reading. */
  function Marginal(first: (nat, nat), last: (nat, nat), baseline: nat): nat
    requires last.0 > 0
  {
    if last.0 > first.0 then SaturatingSub(last.1, first.1) / (last.0 - first.0)
    else SaturatingSub(last.1, baseline) / last.0
  }

  /** The count before the cast. */
  function Estimate(n: nat, footprint: nat, marginal: nat, limit: nat): nat
    requires marginal > 0
  {
    var k := n + TruncatingDiv(limit - footprint, marginal);
    if k < 0 then 0 else k
  }

  lemma {:induction false} ReadingsArePositive(steps: seq<Step>)
    ensures forall i | 0 <= i < |Readings(steps)| :: Readings(steps)[i].0 > 0
  {
    if steps != [] {
      ReadingsArePositive(steps[..|steps| - 1]);
    }
  }

  function MemoryEstimate(steps: seq<Step>, baseline: nat, limit: nat): Option<(nat, Option<nat>)> {
    var readings := Readings(steps);
    if readings == [] then None
    else
      var first, last := readings[0], readings[|readings| - 1];
      ReadingsArePositive(steps);
      var marginal := Marginal(first, last, baseline);
      Some((marginal, if marginal > 0 then Some(AsU64(Estimate(last.0, last.1, marginal, limit))) else None))
  }

  /** Between the first and the last reading when the count grew, and otherwise
      from the baseline to the last: what was added, and by how many. */
  function Added(first: (nat, nat), last: (nat, nat), baseline: nat): (int, nat) {
    if last.0 > first.0 then (last.1 - first.1, last.0 - first.0) else (last.1 - baseline, last.0)
  }

  /** There is an estimate exactly when there is a clean reading.  Its cost is what
      each workload added, rounded down, and nothing if the footprint shrank; and
      there is a count exactly when that is something. */
  lemma CostIsWhatWasAdded(steps: seq<Step>, baseline: nat, limit: nat)
    ensures MemoryEstimate(steps, baseline, limit).Some? <==>
            exists i :: 0 <= i < |steps| && steps[i].clean && steps[i].workloads > 0 && steps[i].footprint.Some?
    ensures MemoryEstimate(steps, baseline, limit).Some? ==>
            var (marginal, count) := MemoryEstimate(steps, baseline, limit).value;
            var readings := Readings(steps);
            && readings != [] && (count.Some? <==> marginal > 0)
            && var (added, workloads) := Added(readings[0], readings[|readings| - 1], baseline);
               && (added < 0 ==> marginal == 0)
               && (added >= 0 ==> marginal * workloads <= added < (marginal + 1) * workloads)
  {
    ReadingsAreClean(steps);
    ReadingsArePositive(steps);
    var readings := Readings(steps);
    if readings != [] {
      var (added, workloads) := Added(readings[0], readings[|readings| - 1], baseline);
      if added >= 0 {
        RoundedDown(added, workloads);
      }
    }
  }

  lemma RoundedDown(x: nat, m: nat)
    requires m > 0
    ensures (x / m) * m <= x < (x / m + 1) * m
  {
    var q, r := x / m, x % m;
    assert x == q * m + r;
    assert (q + 1) * m == q * m + m;
  }

  lemma {:induction false} ReadingsAreClean(steps: seq<Step>)
    ensures Readings(steps) != [] <==>
            exists i :: 0 <= i < |steps| && steps[i].clean && steps[i].workloads > 0 && steps[i].footprint.Some?
  {
    if steps != [] {
      var n := |steps| - 1;
      ReadingsAreClean(steps[..n]);
      if i :| 0 <= i < |steps| && steps[i].clean && steps[i].workloads > 0 && steps[i].footprint.Some? {
        assert i < n ==> steps[..n][i] == steps[i];
      }
      if i :| 0 <= i < n && steps[..n][i].clean && steps[..n][i].workloads > 0 && steps[..n][i].footprint.Some? {
        assert steps[i] == steps[..n][i];
      }
    }
  }

  /** `k` workloads fit: `n` of them take `footprint`, and each further one, or
      one fewer, changes that by `marginal`. */
  predicate Fits(k: int, n: nat, footprint: nat, marginal: nat, limit: nat) {
    footprint + (k - n) * marginal <= limit
  }

  /** Within the limit the estimate is the largest count that fits. */
  lemma EstimateIsLargest(n: nat, footprint: nat, marginal: nat, limit: nat, k: int)
    requires marginal > 0 && footprint <= limit
    ensures Fits(k, n, footprint, marginal, limit) <==> k <= Estimate(n, footprint, marginal, limit)
  {
    var q := (limit - footprint) / marginal;
    assert limit - footprint == q * marginal + (limit - footprint) % marginal;
    if k - n <= q {
      MulGrows(k - n, q, marginal);
    } else {
      MulGrows(q + 1, k - n, marginal);
    }
  }

  /** Over the limit, truncation toward zero keeps the count too high: it fits
      if and only if the excess is a whole number of workloads, and no more of
      them than there are. */
  lemma EstimateFitsIff(n: nat, footprint: nat, marginal: nat, limit: nat)
    requires marginal > 0
    ensures Fits(Estimate(n, footprint, marginal, limit), n, footprint, marginal, limit) <==>
            footprint <= limit || ((footprint - limit) % marginal == 0 && (footprint - limit) / marginal <= n)
  {
    if footprint <= limit {
      EstimateIsLargest(n, footprint, marginal, limit, Estimate(n, footprint, marginal, limit));
    } else {
      var excess := footprint - limit;
      var q, r := excess / marginal, excess % marginal;
      assert excess == q * marginal + r;
      if q <= n {
        assert Estimate(n, footprint, marginal, limit) == n - q;
        assert (n - q - n) * marginal == -(q * marginal);
      } else {
        assert Estimate(n, footprint, marginal, limit) == 0;
        assert (0 - n) * marginal == -(n * marginal);
        MulGrows(n + 1, q, marginal);
      }
    }
  }

  /** Over the limit the count is less than one workload above the exact answer,
      or zero. */
  lemma EstimateIsClose(n: nat, footprint: nat, marginal: nat, limit: nat)
    requires marginal > 0 && footprint > limit
    ensures var exact := n as real - (footprint - limit) as real / marginal as real;
            var k := Estimate(n, footprint, marginal, limit) as real;
            if exact <= -1.0 then k == 0.0 else exact <= k < exact + 1.0
  {
    var excess := footprint - limit;
    var q, r := excess / marginal, excess % marginal;
    assert excess == q * marginal + r;
    var x, m := excess as real, marginal as real;
    assert x == q as real * m + r as real;
    assert x / m == q as real + r as real / m;
    assert 0.0 <= r as real / m < 1.0;
  }

  /** From a single reading, or readings that do not grow, the count fits 64
      bits, so the cast is exact. */
  lemma AverageEstimateFits(n: nat, footprint: nat, baseline: nat, limit: nat)
    requires n > 0 && n <= U64_MAX && footprint <= U64_MAX && limit <= U64_MAX
    requires SaturatingSub(footprint, baseline) / n > 0
    ensures var e := Estimate(n, footprint, SaturatingSub(footprint, baseline) / n, limit);
            e <= U64_MAX && AsU64(e) == e
  {
    var total := SaturatingSub(footprint, baseline);
    var marginal := total / n;
    assert n <= total by {
      if total < n { DivIs(total, n, 0, total); }
    }
    EstimateBound(n, footprint, marginal, limit, n);
  }

  /** From the slope between two readings it does so whenever the first count
      and the limit do together. */
  lemma SlopeEstimateFits(first: (nat, nat), n: nat, footprint: nat, limit: nat)
    requires n > first.0 && first.0 + limit <= U64_MAX && n <= U64_MAX
    requires SaturatingSub(footprint, first.1) / (n - first.0) > 0
    ensures var e := Estimate(n, footprint, SaturatingSub(footprint, first.1) / (n - first.0), limit);
            e <= U64_MAX && AsU64(e) == e
  {
    var total, d := SaturatingSub(footprint, first.1), n - first.0;
    var marginal := total / d;
    assert d <= total by {
      if total < d { DivIs(total, d, 0, total); }
    }
    EstimateBound(n, footprint, marginal, limit, d);
  }

  lemma DivLe(x: nat, m: nat)
    requires m > 0
    ensures 0 <= x / m <= x
  {
    var q, r := x / m, x % m;
    assert x == q * m + r;
    if m > 1 {
      MulGrows(1, m, q);
    }
  }

  lemma EstimateBound(n: nat, footprint: nat, marginal: nat, limit: nat, d: nat)
    requires marginal > 0 && d <= n && d <= footprint
    ensures Estimate(n, footprint, marginal, limit) <= n - d + limit || Estimate(n, footprint, marginal, limit) <= n
  {
    if footprint <= limit {
      DivLe(limit - footprint, marginal);
    } else {
      DivLe(footprint - limit, marginal);
    }
  }

  /** Every reading, the baseline and the limit are 64-bit values, and when the
      count comes from a slope, the first count and the limit are so together. */
  predicate InRange(steps: seq<Step>, limit: nat) {
    var readings := Readings(steps);
    && limit <= U64_MAX
    && (forall i | 0 <= i < |readings| :: readings[i].0 <= U64_MAX && readings[i].1 <= U64_MAX)
    && (readings != [] && readings[|readings| - 1].0 > readings[0].0 ==> readings[0].0 + limit <= U64_MAX)
  }

  /** When there is a count and the last clean reading is within the limit, the
      count is the largest that fits at the measured cost per workload. */
  lemma CountIsLargestThatFits(steps: seq<Step>, baseline: nat, limit: nat, k: int)
    requires InRange(steps, limit) && MemoryEstimate(steps, baseline, limit).Some?
    requires MemoryEstimate(steps, baseline, limit).value.1.Some?
    requires Readings(steps)[|Readings(steps)| - 1].1 <= limit
    ensures var (marginal, count) := MemoryEstimate(steps, baseline, limit).value;
            var (n, footprint) := Readings(steps)[|Readings(steps)| - 1];
            Fits(k, n, footprint, marginal, limit) <==> k <= count.value
  {
    var readings := Readings(steps);
    var first, last := readings[0], readings[|readings| - 1];
    ReadingsArePositive(steps);
    if last.0 > first.0 {
      SlopeEstimateFits(first, last.0, last.1, limit);
    } else {
      AverageEstimateFits(last.0, last.1, baseline, limit);
    }
    EstimateIsLargest(last.0, last.1, Marginal(first, last, baseline), limit, k);
  }

  ghost predicate Largest(count: nat, n: nat, footprint: nat, marginal: nat, limit: nat) {
    forall k :: Fits(k, n, footprint, marginal, limit) <==> k <= count
  }

  /** Within the limit the cast keeps the largest count if and only if it is a
      64-bit value, said without dividing. */
  lemma CastIsLargestIff(n: nat, footprint: nat, marginal: nat, limit: nat)
    requires marginal > 0 && footprint <= limit
    ensures Largest(AsU64(Estimate(n, footprint, marginal, limit)), n, footprint, marginal, limit) <==>
            n * marginal + limit - footprint < (U64_MAX + 1) * marginal
  {
    var e := Estimate(n, footprint, marginal, limit);
    EstimateIsLargest(n, footprint, marginal, limit, e);
    FitsIsLinear(U64_MAX + 1, n, footprint, marginal, limit);
    EstimateIsLargest(n, footprint, marginal, limit, U64_MAX + 1);
    if e <= U64_MAX {
      forall k ensures Fits(k, n, footprint, marginal, limit) <==> k <= AsU64(e) {
        EstimateIsLargest(n, footprint, marginal, limit, k);
      }
    } else {
      assert AsU64(e) < e && Fits(e, n, footprint, marginal, limit);
    }
  }

  lemma FitsIsLinear(k: int, n: nat, footprint: nat, marginal: nat, limit: nat)
    ensures Fits(k, n, footprint, marginal, limit) <==> k * marginal <= n * marginal + limit - footprint
  {
    assert (k - n) * marginal == k * marginal - n * marginal;
  }

  /** Over the limit it is the largest only when the excess is a whole number of
      workloads, and no more of them than there are. */
  lemma ExcessIsLargestIff(n: nat, footprint: nat, marginal: nat, limit: nat)
    requires marginal > 0 && footprint > limit && n <= U64_MAX
    ensures Largest(AsU64(Estimate(n, footprint, marginal, limit)), n, footprint, marginal, limit) <==>
            (footprint - limit) % marginal == 0 && (footprint - limit) / marginal <= n
  {
    var q, e := (footprint - limit) / marginal, Estimate(n, footprint, marginal, limit);
    assert footprint - limit == q * marginal + (footprint - limit) % marginal;
    assert 0 <= e <= n && AsU64(e) == e;
    EstimateFitsIff(n, footprint, marginal, limit);
    if (footprint - limit) % marginal == 0 && q <= n {
      forall k ensures Fits(k, n, footprint, marginal, limit) <==> k <= e {
        WholeExcess(k, n, footprint, marginal, limit, q);
      }
    } else {
      assert e <= e && !Fits(e, n, footprint, marginal, limit);
    }
  }

  lemma WholeExcess(k: int, n: nat, footprint: nat, marginal: nat, limit: nat, q: nat)
    requires marginal > 0 && footprint - limit == q * marginal
    ensures Fits(k, n, footprint, marginal, limit) <==> k <= n - q
  {
    FitsIsLinear(k, n, footprint, marginal, limit);
    assert (n - q) * marginal == n * marginal - q * marginal;
    if k <= n - q {
      MulGrows(k, n - q, marginal);
    } else {
      MulGrows(n - q + 1, k, marginal);
    }
  }

  /** For all 64-bit readings and limits: the returned count is the largest that
      fits at the returned cost if and only if, within the limit, it is a 64-bit
      value; and over the limit, the excess is a whole number of workloads. */
  lemma CountIsLargestIff(steps: seq<Step>, baseline: nat, limit: nat)
    requires forall i | 0 <= i < |Readings(steps)| :: Readings(steps)[i].0 <= U64_MAX
    requires MemoryEstimate(steps, baseline, limit).Some? && MemoryEstimate(steps, baseline, limit).value.1.Some?
    ensures var (marginal, count) := MemoryEstimate(steps, baseline, limit).value;
            var (n, footprint) := Readings(steps)[|Readings(steps)| - 1];
            marginal > 0 &&
            (Largest(count.value, n, footprint, marginal, limit) <==>
             if footprint <= limit then n * marginal + limit - footprint < (U64_MAX + 1) * marginal
             else (footprint - limit) % marginal == 0 && (footprint - limit) / marginal <= n)
  {
    ReadingsArePositive(steps);
    var first, last := Readings(steps)[0], Readings(steps)[|Readings(steps)| - 1];
    var marginal := Marginal(first, last, baseline);
    if last.1 <= limit {
      CastIsLargestIff(last.0, last.1, marginal, limit);
    } else {
      ExcessIsLargestIff(last.0, last.1, marginal, limit);
    }
  }

  /** Beyond that bound the cast does wrap. */
  lemma SlopeEstimateCanWrap()
    ensures var first, last := (U64_MAX - 1, 0), (U64_MAX, 1);
            var steps := [Step(first.0, Some(first.1), true), Step(last.0, Some(last.1), true)];
            MemoryEstimate(steps, 0, U64_MAX) == Some((1, Some(U64_MAX - 2)))
  {
    var a, b := Step(U64_MAX - 1, Some(0), true), Step(U64_MAX, Some(1), true);
    assert [a, b][..1] == [a] && [a][..0] == [];
    assert Readings([a]) == [(U64_MAX - 1, 0)];
    assert Readings([a, b]) == [(U64_MAX - 1, 0), (U64_MAX, 1)];
  }
}
