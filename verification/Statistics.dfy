/** The final report of ping.c: cal_rtt and icmp_statistics, over reals. */
module Statistics {

  /** The size of tmp_rtt. */
  const MAX := 10000

  function Sum(xs: seq<real>): real {
    if xs == [] then 0.0 else Sum(xs[..|xs| - 1]) + xs[|xs| - 1]
  }

  function Abs(x: real): real { if x > 0.0 then x else -x }

  function SumOfDeviations(xs: seq<real>, a: real): real {
    if xs == [] then 0.0 else SumOfDeviations(xs[..|xs| - 1], a) + Abs(xs[|xs| - 1] - a)
  }

  ghost predicate Within(xs: seq<real>, lo: real, hi: real) {
    forall i :: 0 <= i < |xs| ==> lo <= xs[i] <= hi
  }

  /** The distance of x from 0. */
  lemma AbsIsDistance(x: real)
    ensures Abs(x) >= x && Abs(x) >= -x && (Abs(x) == x || Abs(x) == -x)
  {}

  lemma SumOfMore(xs: seq<real>, x: real)
    ensures Sum(xs + [x]) == Sum(xs) + x
  {
    assert (xs + [x])[..|xs|] == xs;
  }

  lemma DeviationsOfMore(xs: seq<real>, x: real, a: real)
    ensures SumOfDeviations(xs + [x], a) == SumOfDeviations(xs, a) + if x > a then x - a else a - x
  {
    assert (xs + [x])[..|xs|] == xs;
  }

  // ---------------------------------------------------------------- n times x

  /** n * x, as a sum. */
  ghost function Times(n: nat, x: real): real {
    if n == 0 then 0.0 else Times(n - 1, x) + x
  }

  lemma Distribute(r: real, x: real, y: real)
    ensures r * (x + y) == r * x + r * y
  {}

  lemma {:induction false} TimesIsProduct(n: nat, x: real)
    ensures Times(n, x) == n as real * x
  {
    if n > 0 {
      TimesIsProduct(n - 1, x);
      Distribute(x, (n - 1) as real, 1.0);
    }
  }

  lemma {:induction false} TimesAdd(n: nat, x: real, y: real)
    ensures Times(n, x + y) == Times(n, x) + Times(n, y)
  {
    if n > 0 {
      TimesAdd(n - 1, x, y);
    }
  }

  lemma {:induction false} TimesScaled(n: nat, r: real, x: real, p: real)
    requires p == r * x
    ensures Times(n, p) == r * Times(n, x)
  {
    if n > 0 {
      TimesScaled(n - 1, r, x, p);
      Distribute(r, Times(n - 1, x), x);
    }
  }

  lemma {:induction false} TimesMonotone(n: nat, x: real, y: real)
    requires x <= y
    ensures Times(n, x) <= Times(n, y)
    ensures n > 0 && x < y ==> Times(n, x) < Times(n, y)
  {
    if n > 0 {
      TimesMonotone(n - 1, x, y);
    }
  }

  lemma Between(n: nat, q: real, lo: real, hi: real)
    requires n > 0 && Times(n, lo) <= Times(n, q) <= Times(n, hi)
    ensures lo <= q <= hi
  {
    if q < lo {
      TimesMonotone(n, q, lo);
    } else if hi < q {
      TimesMonotone(n, hi, q);
    }
  }

  lemma {:induction false} SumWithin(xs: seq<real>, lo: real, hi: real)
    requires Within(xs, lo, hi)
    ensures Times(|xs|, lo) <= Sum(xs) <= Times(|xs|, hi)
  {
    if xs != [] {
      SumWithin(xs[..|xs| - 1], lo, hi);
    }
  }

  // ---------------------------------------------------------------- the mean deviation from below

  /** The sum of what the samples above a exceed it by. */
  function Excess(xs: seq<real>, a: real): real {
    if xs == [] then 0.0
    else Excess(xs[..|xs| - 1], a) + if xs[|xs| - 1] > a then xs[|xs| - 1] - a else 0.0
  }

  lemma {:induction false} DeviationsByExcess(xs: seq<real>, a: real)
    ensures SumOfDeviations(xs, a) == 2.0 * Excess(xs, a) - (Sum(xs) - Times(|xs|, a))
  {
    if xs != [] {
      DeviationsByExcess(xs[..|xs| - 1], a);
    }
  }

  /** Around their average, the samples' distances add up to twice the excess. */
  lemma TwiceTheExcess(xs: seq<real>, a: real)
    requires Times(|xs|, a) == Sum(xs)
    ensures SumOfDeviations(xs, a) == 2.0 * Excess(xs, a)
  {
    DeviationsByExcess(xs, a);
  }

  lemma {:induction false} DeviationsNonNegative(xs: seq<real>, a: real)
    ensures SumOfDeviations(xs, a) >= 0.0
  {
    if xs != [] {
      DeviationsNonNegative(xs[..|xs| - 1], a);
    }
  }

  lemma {:induction false} DeviationsAtLeast(xs: seq<real>, a: real, i: nat)
    requires i < |xs|
    ensures SumOfDeviations(xs, a) >= xs[i] - a && SumOfDeviations(xs, a) >= a - xs[i]
  {
    var ys := xs[..|xs| - 1];
    if i < |ys| {
      DeviationsAtLeast(ys, a, i);
    } else {
      DeviationsNonNegative(ys, a);
    }
  }

  lemma {:induction false} DeviationsSpread(xs: seq<real>, a: real, i: nat, j: nat)
    requires i < |xs| && j < |xs| && xs[i] <= a <= xs[j]
    ensures SumOfDeviations(xs, a) >= xs[j] - xs[i]
  {
    var ys, last := xs[..|xs| - 1], |xs| - 1;
    if i < last && j < last {
      DeviationsSpread(ys, a, i, j);
    } else if i < last {
      DeviationsAtLeast(ys, a, i);
    } else if j < last {
      DeviationsAtLeast(ys, a, j);
    } else {
      DeviationsNonNegative(ys, a);
    }
  }

  // ---------------------------------------------------------------- the chord over [lo, hi]

  lemma ScaledLess(x: real, y: real, z: real)
    requires z > 0.0 && x < y
    ensures x * z < y * z
  {}

  lemma Cancel(x: real, y: real, z: real)
    requires z > 0.0 && x * z <= y * z
    ensures x <= y
  {
    if y < x {
      ScaledLess(y, x, z);
    }
  }

  /** r is the slope of the chord of |x - a| over [lo, hi]. */
  ghost predicate Slope(r: real, a: real, lo: real, hi: real) {
    r * (hi - lo) == (hi - a) - (a - lo)
  }

  /** A distance u + v apart, with a at distance u from the left end and x at distance t from a. */
  lemma ChordProduct(u: real, v: real, t: real)
    requires u >= 0.0 && v >= 0.0 && -u <= t <= v
    ensures Abs(t) * (u + v) <= u * (u + v) + (u + t) * (v - u)
  {
    if t > 0.0 {
      assert u * (v - t) >= 0.0;
    } else {
      assert v * (u + t) >= 0.0;
    }
  }

  /** The distance to a lies below the chord. */
  lemma BelowChord(x: real, a: real, lo: real, hi: real, r: real)
    requires lo <= x <= hi && lo <= a <= hi && lo < hi && Slope(r, a, lo, hi)
    ensures Abs(x - a) <= (a - lo) - r * lo + r * x
  {
    var u, v, w := a - lo, hi - a, hi - lo;
    ChordProduct(u, v, x - a);
    assert (u + r * (x - lo)) * w == u * w + (x - lo) * (r * w);
    Cancel(Abs(x - a), u + r * (x - lo), w);
    Distribute(r, x, -lo);
  }

  /** At a itself the chord is at most half as high as the interval is wide. */
  lemma ChordAtA(a: real, lo: real, hi: real, r: real)
    requires lo <= a <= hi && lo < hi && Slope(r, a, lo, hi)
    ensures (a - lo) - r * lo + r * a <= (hi - lo) / 2.0
  {
    var u, v, w := a - lo, hi - a, hi - lo;
    assert (u - v) * (u - v) >= 0.0;
    assert (u + r * u) * w == u * w + u * (r * w);
    assert u * w + u * (v - u) <= w * w / 2.0;
    Cancel(u + r * u, w / 2.0, w);
    Distribute(r, a, -lo);
  }

  lemma LineStep(d: real, t: real, s: real, e: real, base: real, r: real, x: real)
    requires d <= t + r * s && e <= base + r * x
    ensures d + e <= (t + base) + r * (s + x)
  {
    Distribute(r, s, x);
  }

  /** Each distance to a is at most base + r * x. */
  ghost predicate BelowLine(xs: seq<real>, a: real, r: real, base: real) {
    xs == [] ||
    (BelowLine(xs[..|xs| - 1], a, r, base) && Abs(xs[|xs| - 1] - a) <= base + r * xs[|xs| - 1])
  }

  lemma {:induction false} AllBelowChord(xs: seq<real>, a: real, lo: real, hi: real, r: real, base: real)
    requires Within(xs, lo, hi) && lo <= a <= hi && lo < hi && Slope(r, a, lo, hi)
    requires base == (a - lo) - r * lo
    ensures BelowLine(xs, a, r, base)
  {
    if xs != [] {
      AllBelowChord(xs[..|xs| - 1], a, lo, hi, r, base);
      BelowChord(xs[|xs| - 1], a, lo, hi, r);
    }
  }

  lemma {:induction false} DeviationsBelowLine(xs: seq<real>, a: real, r: real, base: real)
    requires BelowLine(xs, a, r, base)
    ensures SumOfDeviations(xs, a) <= Times(|xs|, base) + r * Sum(xs)
  {
    if xs != [] {
      var ys, x := xs[..|xs| - 1], xs[|xs| - 1];
      DeviationsBelowLine(ys, a, r, base);
      LineStep(SumOfDeviations(ys, a), Times(|ys|, base), Sum(ys), Abs(x - a), base, r, x);
    }
  }

  lemma {:induction false} AllEqual(xs: seq<real>, a: real)
    requires Within(xs, a, a)
    ensures SumOfDeviations(xs, a) == 0.0
  {
    if xs != [] {
      AllEqual(xs[..|xs| - 1], a);
    }
  }

  lemma SlopeExists(a: real, lo: real, hi: real) returns (r: real)
    requires lo < hi
    ensures Slope(r, a, lo, hi)
  {
    r := ((hi - a) - (a - lo)) / (hi - lo);
  }

  /** At the average the line is n times as high as there. */
  lemma LineAtAverage(n: nat, s: real, a: real, r: real, base: real, top: real)
    requires s == Times(n, a) && base + r * a <= top
    ensures Times(n, base) + r * s <= Times(n, top)
  {
    var rise := r * a;
    TimesScaled(n, r, a, rise);
    TimesAdd(n, base, rise);
    TimesMonotone(n, base + rise, top);
  }

  lemma DeviationsBound(xs: seq<real>, a: real, lo: real, hi: real)
    requires Within(xs, lo, hi) && lo <= a <= hi && Sum(xs) == Times(|xs|, a)
    ensures SumOfDeviations(xs, a) <= Times(|xs|, (hi - lo) / 2.0)
  {
    if lo < hi {
      var r := SlopeExists(a, lo, hi);
      var base := (a - lo) - r * lo;
      AllBelowChord(xs, a, lo, hi, r, base);
      DeviationsBelowLine(xs, a, r, base);
      ChordAtA(a, lo, hi, r);
      LineAtAverage(|xs|, Sum(xs), a, r, base, (hi - lo) / 2.0);
    } else {
      AllEqual(xs, a);
      TimesIsProduct(|xs|, 0.0);
    }
  }

  /** The average lies between the extremes, and the mean deviation is at most half their
      distance. */
  lemma ReportBounds(xs: seq<real>, lo: real, hi: real, avg: real, mdev: real)
    requires xs != [] && Within(xs, lo, hi)
    requires Times(|xs|, avg) == Sum(xs) && Times(|xs|, mdev) == SumOfDeviations(xs, avg)
    ensures lo <= avg <= hi && 0.0 <= mdev <= (hi - lo) / 2.0
  {
    SumWithin(xs, lo, hi);
    Between(|xs|, avg, lo, hi);
    DeviationsBound(xs, avg, lo, hi);
    DeviationsNonNegative(xs, avg);
    TimesIsProduct(|xs|, 0.0);
    Between(|xs|, mdev, 0.0, (hi - lo) / 2.0);
  }

  /** The mean deviation is 0 only if all samples are equal: all distances together are at least the
      range. */
  lemma SpreadBound(xs: seq<real>, lo: real, hi: real, avg: real, mdev: real)
    requires lo in xs && hi in xs && Within(xs, lo, hi) && lo <= avg <= hi
    requires Times(|xs|, mdev) == SumOfDeviations(xs, avg) && 0.0 <= mdev <= (hi - lo) / 2.0
    ensures Times(|xs|, mdev) >= hi - lo && (mdev == 0.0 <==> lo == hi)
  {
    var i :| 0 <= i < |xs| && xs[i] == lo;
    var j :| 0 <= j < |xs| && xs[j] == hi;
    DeviationsSpread(xs, avg, i, j);
    if mdev == 0.0 {
      TimesIsProduct(|xs|, 0.0);
    }
  }

  // ---------------------------------------------------------------- cal_rtt

  /** What cal_rtt leaves in min, max, avg and mdev; with nothing received it divides 0 by 0. */
  datatype Figures = NotNumbers | Figures(min: real, max: real, avg: real, mdev: real)

  /** The figures are the attained extremes of the samples, their average and their mean
      deviation from it. */
  ghost predicate FiguresOf(xs: seq<real>, f: Figures) {
    if xs == [] then f == NotNumbers
    else
      && f.Figures? && f.min in xs && f.max in xs && Within(xs, f.min, f.max)
      && Times(|xs|, f.avg) == Sum(xs) && Times(|xs|, f.mdev) == SumOfDeviations(xs, f.avg)
      && Times(|xs|, f.mdev) == 2.0 * Excess(xs, f.avg)
      && f.min <= f.avg <= f.max && 0.0 <= f.mdev <= (f.max - f.min) / 2.0
      && Times(|xs|, f.mdev) >= f.max - f.min && (f.mdev == 0.0 <==> f.min == f.max)
  }

  lemma Quotient(x: real, n: nat)
    requires n > 0
    ensures Times(n, x / n as real) == x
  {
    TimesIsProduct(n, x / n as real);
  }

  /** The loop of cal_rtt. */
  method Scan(tmpRtt: array<real>, packetRecv: nat, avg: real) returns (min: real, max: real, sumAvg: real)
    requires 1 <= packetRecv <= tmpRtt.Length
    ensures min in tmpRtt[..packetRecv] && max in tmpRtt[..packetRecv]
    ensures Within(tmpRtt[..packetRecv], min, max)
    ensures sumAvg == SumOfDeviations(tmpRtt[..packetRecv], avg)
  {
    sumAvg := 0.0;
    min, max := tmpRtt[0], tmpRtt[0];
    var i := 0;
    while i < packetRecv
      invariant 0 <= i <= packetRecv
      invariant min in tmpRtt[..packetRecv] && max in tmpRtt[..packetRecv] && min <= max
      invariant Within(tmpRtt[..i], min, max)
      invariant sumAvg == SumOfDeviations(tmpRtt[..i], avg)
    {
      assert tmpRtt[..i + 1][..i] == tmpRtt[..i];
      if tmpRtt[i] < min {
        min := tmpRtt[i];
      }
      if tmpRtt[i] > max {
        max := tmpRtt[i];
      }
      if tmpRtt[i] - avg > 0.0 {
        sumAvg := sumAvg + (tmpRtt[i] - avg);
      } else {
        sumAvg := sumAvg + (avg - tmpRtt[i]);
      }
      i := i + 1;
    }
  }

  /** cal_rtt on the recorded samples; all_time is their sum and packet_recv their number. */
  method CalRtt(tmpRtt: array<real>, packetRecv: nat, allTime: real)
    returns (min: real, max: real, avg: real, mdev: real)
    requires 1 <= packetRecv <= tmpRtt.Length
    requires allTime == Sum(tmpRtt[..packetRecv])
    ensures min in tmpRtt[..packetRecv] && max in tmpRtt[..packetRecv]
    ensures Within(tmpRtt[..packetRecv], min, max)
    ensures Times(packetRecv, avg) == Sum(tmpRtt[..packetRecv])
    ensures Times(packetRecv, mdev) == SumOfDeviations(tmpRtt[..packetRecv], avg)
    ensures min <= avg <= max && 0.0 <= mdev <= (max - min) / 2.0
    ensures Times(packetRecv, mdev) == 2.0 * Excess(tmpRtt[..packetRecv], avg)
    ensures Times(packetRecv, mdev) >= max - min && (mdev == 0.0 <==> min == max)
  {
    avg := allTime / packetRecv as real;
    var sumAvg;
    min, max, sumAvg := Scan(tmpRtt, packetRecv, avg);
    mdev := sumAvg / packetRecv as real;
    Quotient(allTime, packetRecv);
    Quotient(sumAvg, packetRecv);
    ReportBounds(tmpRtt[..packetRecv], min, max, avg, mdev);
    SpreadBound(tmpRtt[..packetRecv], min, max, avg, mdev);
    TwiceTheExcess(tmpRtt[..packetRecv], avg);
  }
}
