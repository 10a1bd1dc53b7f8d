/** Sorting, percentiles and the five-number summary of a box plot.

    `SortValues` is the in-place `sort_values(..., inplace=True)` the
    notebook applies to its tables; `SortedCopy` is the value-level sort
    that specifies it and that numpy's percentile works on. */
module OrderStatistics {
  import opened Sums

  // ---------------------------------------------------------------------
  // Sorting a table in place by one column

  /** x may come before y in a table sorted on `key`. */
  predicate Ordered<T>(x: T, y: T, key: T -> real, ascending: bool)
  {
    if ascending then key(x) <= key(y) else key(x) >= key(y)
  }

  predicate SortedBy<T>(s: seq<T>, key: T -> real, ascending: bool)
  {
    forall i, j :: 0 <= i < j < |s| ==> Ordered(s[i], s[j], key, ascending)
  }

  /** Exchanges two rows. */
  method Swap<T>(a: array<T>, i: nat, j: nat)
    requires i < a.Length && j < a.Length
    modifies a
    ensures a[..] == old(a[..])[i := old(a[j])][j := old(a[i])]
    ensures multiset(a[..]) == multiset(old(a[..]))
  {
    a[i], a[j] := a[j], a[i];
  }

  /** Moves a[i] down into the sorted prefix a[..i]. */
  method SinkLast<T>(a: array<T>, i: nat, key: T -> real, ascending: bool)
    requires i < a.Length
    requires SortedBy(a[..i], key, ascending)
    modifies a
    ensures SortedBy(a[..i + 1], key, ascending)
    ensures multiset(a[..]) == multiset(old(a[..]))
    ensures forall k :: i < k < a.Length ==> a[k] == old(a[k])
  {
    var j := i;
    while j > 0 && !Ordered(a[j - 1], a[j], key, ascending)
      invariant 0 <= j <= i
      invariant multiset(a[..]) == multiset(old(a[..]))
      invariant forall k :: i < k < a.Length ==> a[k] == old(a[k])
      invariant forall k, l :: 0 <= k < l <= i && k != j && l != j ==> Ordered(a[k], a[l], key, ascending)
      invariant forall l :: j < l <= i ==> Ordered(a[j], a[l], key, ascending)
    {
      Swap(a, j - 1, j);
      j := j - 1;
    }
  }

  /** `sort_values(by=key, ascending=ascending, inplace=True)`: the rows end
      up ordered on the key and are the same rows as before. */
  method SortValues<T>(a: array<T>, key: T -> real, ascending: bool)
    modifies a
    ensures SortedBy(a[..], key, ascending)
    ensures multiset(a[..]) == multiset(old(a[..]))
  {
    var i := 0;
    while i < a.Length
      invariant 0 <= i <= a.Length
      invariant SortedBy(a[..i], key, ascending)
      invariant multiset(a[..]) == multiset(old(a[..]))
    {
      SinkLast(a, i, key, ascending);
      i := i + 1;
    }
    assert a[..a.Length] == a[..];
  }

  // ---------------------------------------------------------------------
  // Sorting values

  predicate SortedAsc(s: seq<real>)
  {
    forall i, j :: 0 <= i < j < |s| ==> s[i] <= s[j]
  }

  /** Places x into an ascending sequence. */
  function InsertSorted(s: seq<real>, x: real): (r: seq<real>)
    requires SortedAsc(s)
    ensures SortedAsc(r)
    ensures multiset(r) == multiset(s) + multiset{x}
  {
    if |s| == 0 then [x]
    else if x <= s[0] then [x] + s
    else
      var rest := InsertSorted(s[1..], x);
      LowerBoundKept(s, x, rest);
      assert s == [s[0]] + s[1..];
      [s[0]] + rest
  }

  /** Every element of rest, made of the tail of an ascending s and a
      value above its head, lies at or above that head. */
  lemma LowerBoundKept(s: seq<real>, x: real, rest: seq<real>)
    requires SortedAsc(s) && |s| > 0 && s[0] < x
    requires multiset(rest) == multiset(s[1..]) + multiset{x}
    ensures forall k :: 0 <= k < |rest| ==> s[0] <= rest[k]
  {
    forall k | 0 <= k < |rest|
      ensures s[0] <= rest[k]
    {
      assert rest[k] in multiset(rest);
      if rest[k] != x {
        assert rest[k] in multiset(s[1..]);
        var m :| 0 <= m < |s| - 1 && s[1..][m] == rest[k];
        assert s[0] <= s[m + 1];
      }
    }
  }

  /** The sample in ascending order (`np.sort`). */
  function SortedCopy(xs: seq<real>): (r: seq<real>)
    ensures SortedAsc(r)
    ensures multiset(r) == multiset(xs)
  {
    if |xs| == 0 then []
    else
      assert xs == [xs[0]] + xs[1..];
      InsertSorted(SortedCopy(xs[1..]), xs[0])
  }

  /** Sorted sequences holding the same values are equal: the ascending
      order statistics of a sample are determined by the sample. */
  lemma {:induction false} SortedUnique(a: seq<real>, b: seq<real>)
    requires SortedAsc(a) && SortedAsc(b)
    requires multiset(a) == multiset(b)
    ensures a == b
  {
    assert |a| == |multiset(a)| == |multiset(b)| == |b|;
    if |a| > 0 {
      SortedHeadsEqual(a, b);
      TailMultiset(a);
      TailMultiset(b);
      SortedUnique(a[1..], b[1..]);
    }
  }

  /** Sorted sequences holding the same values start with the same value. */
  lemma SortedHeadsEqual(a: seq<real>, b: seq<real>)
    requires SortedAsc(a) && SortedAsc(b) && |a| > 0 && |b| > 0
    requires multiset(a) == multiset(b)
    ensures a[0] == b[0]
  {
    assert a[0] in multiset(b) && b[0] in multiset(a);
    var i :| 0 <= i < |b| && b[i] == a[0];
    var j :| 0 <= j < |a| && a[j] == b[0];
    assert b[0] <= b[i] && a[0] <= a[j];
  }

  lemma TailMultiset(a: seq<real>)
    requires |a| > 0
    ensures multiset(a[1..]) == multiset(a) - multiset{a[0]}
  {
    assert a == [a[0]] + a[1..];
  }

  /** Sorting a sequence that is already ascending leaves it as it is. */
  lemma SortedCopyOfSorted(s: seq<real>)
    requires SortedAsc(s)
    ensures SortedCopy(s) == s
  {
    SortedUnique(SortedCopy(s), s);
  }

  /** Any ascending rearrangement of a sample is its sorted copy. */
  lemma SortedCopyIsSorting(xs: seq<real>, s: seq<real>)
    requires SortedAsc(s) && multiset(s) == multiset(xs)
    ensures SortedCopy(xs) == s
  {
    SortedUnique(SortedCopy(xs), s);
  }

  /** Ascending order checked between neighbours. */
  lemma {:induction false} SortedFromNeighbours(s: seq<real>)
    requires forall i :: 0 <= i < |s| - 1 ==> s[i] <= s[i + 1]
    ensures SortedAsc(s)
  {
    if |s| > 1 {
      SortedFromNeighbours(s[1..]);
      forall j | 1 <= j < |s|
        ensures s[0] <= s[j]
      {
        assert s[1..][j - 1] == s[j];
        assert s[1] <= s[j] || j == 1;
      }
    }
  }

  // ---------------------------------------------------------------------
  // Percentiles by linear interpolation

  lemma ScaleBetween(q: real, d: real)
    requires 0.0 <= q <= 1.0 && d >= 0.0
    ensures 0.0 <= q * d <= d
  {
    var e := 1.0 - q;
    assert e * d >= 0.0;
    assert q * d + e * d == d;
  }

  lemma ScaleMonotone(q1: real, q2: real, d: real)
    requires q1 <= q2 && d >= 0.0
    ensures q1 * d <= q2 * d
  {
    var e := q2 - q1;
    assert e * d >= 0.0;
    assert q2 * d == q1 * d + e * d;
  }

  /** Fractional position h = (n - 1) q of fraction q in n sorted values. */
  function Position(n: nat, q: real): (h: real)
    requires n > 0 && 0.0 <= q <= 1.0
    ensures 0.0 <= h <= (n - 1) as real
  {
    ScaleBetween(q, (n - 1) as real);
    q * (n - 1) as real
  }

  /** The point a fraction t of the way from a to b. */
  function Lerp(a: real, b: real, t: real): real
  {
    a + t * (b - a)
  }

  lemma LerpBetween(a: real, b: real, t: real)
    requires a <= b && 0.0 <= t <= 1.0
    ensures a <= Lerp(a, b, t) <= b
  {
    var d := b - a;
    ScaleBetween(t, d);
    calc {
      Lerp(a, b, t);
      a + t * d;
    }
  }

  lemma LerpMonotone(a: real, b: real, t1: real, t2: real)
    requires a <= b && t1 <= t2
    ensures Lerp(a, b, t1) <= Lerp(a, b, t2)
  {
    var d := b - a;
    ScaleMonotone(t1, t2, d);
    calc {
      Lerp(a, b, t1);
      a + t1 * d;
    <=
      a + t2 * d;
      Lerp(a, b, t2);
    }
  }

  /** Integer part of a position h in [0, k]: the largest index i <= k
      with i <= h. */
  function FloorIndex(h: real, k: nat): (lo: nat)
    requires 0.0 <= h
    ensures lo <= k && lo as real <= h
    ensures lo == k || h < (lo + 1) as real
  {
    if k as real <= h then k else FloorIndex(h, k - 1)
  }

  /** The value at fraction q (0 <= q <= 1) of an ascending sequence:
      at position h = (n - 1) q, interpolated linearly between the order
      statistics at floor(h) and floor(h) + 1. */
  function Interpolate(s: seq<real>, q: real): (v: real)
    requires |s| > 0 && 0.0 <= q <= 1.0
  {
    var h := Position(|s|, q);
    var lo := FloorIndex(h, |s| - 1);
    if lo + 1 < |s| then Lerp(s[lo], s[lo + 1], h - lo as real) else s[lo]
  }

  /** The interpolated value once the position's integer part is known. */
  lemma InterpolateAt(s: seq<real>, q: real, lo: nat)
    requires 0.0 <= q <= 1.0 && lo + 1 < |s|
    requires lo as real <= Position(|s|, q) < (lo + 1) as real
    ensures Interpolate(s, q) == Lerp(s[lo], s[lo + 1], Position(|s|, q) - lo as real)
  {
    var f := FloorIndex(Position(|s|, q), |s| - 1);
    assert f == lo;
  }

  /** An interpolated value lies between its two neighbouring order statistics. */
  lemma InterpolateBetween(s: seq<real>, q: real)
    requires SortedAsc(s) && |s| > 0 && 0.0 <= q <= 1.0
    ensures var lo := FloorIndex(Position(|s|, q), |s| - 1);
      0 <= lo < |s| && s[lo] <= Interpolate(s, q) &&
      (lo + 1 < |s| ==> Interpolate(s, q) <= s[lo + 1]) &&
      (lo + 1 == |s| ==> Interpolate(s, q) == s[lo])
  {
    var h := Position(|s|, q);
    var lo := FloorIndex(h, |s| - 1);
    if lo + 1 < |s| {
      LerpBetween(s[lo], s[lo + 1], h - lo as real);
    }
  }

  /** Every percentile lies between the smallest and the largest observation. */
  lemma InterpolateBounds(s: seq<real>, q: real)
    requires SortedAsc(s) && |s| > 0 && 0.0 <= q <= 1.0
    ensures s[0] <= Interpolate(s, q) <= s[|s| - 1]
  {
    InterpolateBetween(s, q);
  }

  lemma {:induction false} FloorIndexMonotone(h1: real, h2: real, k: nat)
    requires 0.0 <= h1 <= h2
    ensures FloorIndex(h1, k) <= FloorIndex(h2, k)
  {
    if k > 0 && !(k as real <= h2) {
      FloorIndexMonotone(h1, h2, k - 1);
    }
  }

  /** A higher fraction never gives a lower percentile. */
  lemma InterpolateMonotone(s: seq<real>, q1: real, q2: real)
    requires SortedAsc(s) && |s| > 0 && 0.0 <= q1 <= q2 <= 1.0
    ensures Interpolate(s, q1) <= Interpolate(s, q2)
  {
    var h1, h2 := Position(|s|, q1), Position(|s|, q2);
    var n := (|s| - 1) as real;
    ScaleMonotone(q1, q2, n);
    calc {
      h1;
      q1 * n;
    <=
      q2 * n;
      h2;
    }
    FloorIndexMonotone(h1, h2, |s| - 1);
    var lo1, lo2 := FloorIndex(h1, |s| - 1), FloorIndex(h2, |s| - 1);
    if lo1 == lo2 {
      if lo1 + 1 < |s| {
        LerpMonotone(s[lo1], s[lo1 + 1], h1 - lo1 as real, h2 - lo2 as real);
      }
    } else {
      InterpolateBetween(s, q1);
      InterpolateBetween(s, q2);
      assert s[lo1 + 1] <= s[lo2];
    }
  }

  /** The fraction 0 gives the first order statistic, the fraction 1 the last. */
  lemma InterpolateEnds(s: seq<real>)
    requires |s| > 0
    ensures Interpolate(s, 0.0) == s[0]
    ensures Interpolate(s, 1.0) == s[|s| - 1]
  {
    assert Position(|s|, 0.0) == 0.0;
    assert Position(|s|, 1.0) == (|s| - 1) as real;
    if 1 < |s| {
      calc {
        Interpolate(s, 0.0);
        Lerp(s[0], s[1], 0.0);
        s[0];
      }
    }
  }

  /** A percentage as a fraction. */
  function Fraction(p: real): (q: real)
    ensures 0.0 <= p <= 100.0 ==> 0.0 <= q <= 1.0
  {
    p / 100.0
  }

  /** `np.percentile(xs, p)` with linear interpolation; None where numpy
      refuses (an empty sample, p outside [0, 100]). */
  function Percentile(xs: seq<real>, p: real): Option<real>
  {
    if |xs| == 0 || p < 0.0 || p > 100.0 then None
    else Some(Interpolate(SortedCopy(xs), Fraction(p)))
  }

  /** A percentile exists exactly for a nonempty sample and p in [0, 100];
      it lies between the sample's minimum and maximum, the 0th is the
      minimum and the 100th the maximum. */
  lemma PercentileDefined(xs: seq<real>, p: real)
    ensures Percentile(xs, p).Some? <==> |xs| > 0 && 0.0 <= p <= 100.0
  {
  }

  /** Every percentile lies between the sample's minimum and maximum. */
  lemma PercentileBounds(xs: seq<real>, p: real)
    requires |xs| > 0 && 0.0 <= p <= 100.0
    ensures Min(xs) <= Percentile(xs, p).value <= Max(xs)
  {
    calc {
      Percentile(xs, p).value;
    == { PercentileValue(xs, p); }
      Interpolate(SortedCopy(xs), Fraction(p));
    <= { InterpolateWithinSample(xs, Fraction(p)); }
      Max(xs);
    }
    calc {
      Min(xs);
    <= { InterpolateWithinSample(xs, Fraction(p)); }
      Interpolate(SortedCopy(xs), Fraction(p));
    == { PercentileValue(xs, p); }
      Percentile(xs, p).value;
    }
  }

  /** The 0th percentile is the minimum and the 100th the maximum. */
  lemma PercentileExtremes(xs: seq<real>)
    requires |xs| > 0
    ensures Percentile(xs, 0.0) == Some(Min(xs))
    ensures Percentile(xs, 100.0) == Some(Max(xs))
  {
    var s := SortedCopy(xs);
    SortedEnds(xs);
    InterpolateEnds(s);
    assert Fraction(0.0) == 0.0 && Fraction(100.0) == 1.0;
    PercentileOfSorted(xs, s, 0.0, Min(xs));
    PercentileOfSorted(xs, s, 100.0, Max(xs));
  }

  lemma InterpolateWithinSample(xs: seq<real>, q: real)
    requires |xs| > 0 && 0.0 <= q <= 1.0
    ensures |SortedCopy(xs)| > 0 && Min(xs) <= Interpolate(SortedCopy(xs), q) <= Max(xs)
  {
    SortedEnds(xs);
    InterpolateBounds(SortedCopy(xs), q);
  }

  lemma PercentileValue(xs: seq<real>, p: real)
    requires |xs| > 0 && 0.0 <= p <= 100.0
    ensures Percentile(xs, p) == Some(Interpolate(SortedCopy(xs), Fraction(p)))
  {
  }

  /** The first of the sorted values is the sample minimum. */
  lemma SortedFirstIsMin(s: seq<real>, xs: seq<real>)
    requires SortedAsc(s) && multiset(s) == multiset(xs) && |xs| > 0
    ensures |s| == |xs| && s[0] == Min(xs)
  {
    assert |s| == |multiset(s)| == |multiset(xs)| == |xs|;
    var m := Min(xs);
    assert m in multiset(s);
    var i :| 0 <= i < |s| && s[i] == m;
    assert s[0] in multiset(xs);
    var j :| 0 <= j < |xs| && xs[j] == s[0];
    assert s[0] <= s[i];
  }

  /** The last of the sorted values is the sample maximum. */
  lemma SortedLastIsMax(s: seq<real>, xs: seq<real>)
    requires SortedAsc(s) && multiset(s) == multiset(xs) && |xs| > 0
    ensures |s| == |xs| && s[|s| - 1] == Max(xs)
  {
    assert |s| == |multiset(s)| == |multiset(xs)| == |xs|;
    var m := Max(xs);
    assert m in multiset(s);
    var i :| 0 <= i < |s| && s[i] == m;
    assert s[|s| - 1] in multiset(xs);
    var j :| 0 <= j < |xs| && xs[j] == s[|s| - 1];
    assert s[i] <= s[|s| - 1];
  }

  /** The first order statistic is the minimum and the last the maximum. */
  lemma SortedEnds(xs: seq<real>)
    requires |xs| > 0
    ensures |SortedCopy(xs)| == |xs|
    ensures SortedCopy(xs)[0] == Min(xs) && SortedCopy(xs)[|xs| - 1] == Max(xs)
  {
    SortedFirstIsMin(SortedCopy(xs), xs);
    SortedLastIsMax(SortedCopy(xs), xs);
  }

  /** A larger p never gives a smaller percentile. */
  lemma PercentileMonotone(xs: seq<real>, p1: real, p2: real)
    requires |xs| > 0 && 0.0 <= p1 <= p2 <= 100.0
    ensures Percentile(xs, p1).Some? && Percentile(xs, p2).Some?
    ensures Percentile(xs, p1).value <= Percentile(xs, p2).value
  {
    InterpolateMonotone(SortedCopy(xs), p1 / 100.0, p2 / 100.0);
  }

  // ---------------------------------------------------------------------
  // Box plot statistics

  /** The values printed from `boxplot_stats`: whisker ends, quartiles,
      median and mean. */
  datatype BoxStats = BoxStats(whislo: real, q1: real, med: real, mean: real, q3: real, whishi: real)

  /** Observations at least lim, in sample order. */
  function AtLeast(xs: seq<real>, lim: real): (r: seq<real>)
    ensures forall v :: v in r <==> v in xs && v >= lim
  {
    if |xs| == 0 then []
    else if xs[0] >= lim then [xs[0]] + AtLeast(xs[1..], lim)
    else AtLeast(xs[1..], lim)
  }

  /** Observations at most lim, in sample order. */
  function AtMost(xs: seq<real>, lim: real): (r: seq<real>)
    ensures forall v :: v in r <==> v in xs && v <= lim
  {
    if |xs| == 0 then []
    else if xs[0] <= lim then [xs[0]] + AtMost(xs[1..], lim)
    else AtMost(xs[1..], lim)
  }

  /** 1.5 interquartile ranges above the third quartile. */
  function UpperFence(q1: real, q3: real): (f: real)
    ensures q1 <= q3 ==> f >= q3
  {
    q3 + 1.5 * (q3 - q1)
  }

  /** 1.5 interquartile ranges below the first quartile. */
  function LowerFence(q1: real, q3: real): (f: real)
    ensures q1 <= q3 ==> f <= q1
  {
    q1 - 1.5 * (q3 - q1)
  }

  /** The quartiles, median and mean of the sample, and whiskers reaching
      to the farthest observation within 1.5 interquartile ranges of the
      box (falling back to the quartile itself when no observation on that
      side lies beyond it). None for an empty sample. */
  function BoxplotStats(xs: seq<real>): Option<BoxStats>
  {
    if |xs| == 0 then None
    else
      var s := SortedCopy(xs);
      var q1 := Interpolate(s, 0.25);
      var med := Interpolate(s, 0.5);
      var q3 := Interpolate(s, 0.75);
      var hi := AtMost(xs, UpperFence(q1, q3));
      var lo := AtLeast(xs, LowerFence(q1, q3));
      var whishi := if |hi| == 0 || Max(hi) < q3 then q3 else Max(hi);
      var whislo := if |lo| == 0 || Min(lo) > q1 then q1 else Min(lo);
      Some(BoxStats(whislo, q1, med, Mean(xs), q3, whishi))
  }

  /** The box plot statistics exist for every nonempty sample and are in
      order: whislo <= q1 <= med <= q3 <= whishi, all within the sample's
      range; the mean is also within the range. */
  lemma BoxplotStatsOrdered(xs: seq<real>)
    ensures BoxplotStats(xs).Some? <==> |xs| > 0
    ensures BoxplotStats(xs).Some? ==>
      var b := BoxplotStats(xs).value;
      Min(xs) <= b.whislo <= b.q1 <= b.med <= b.q3 <= b.whishi <= Max(xs) &&
      Min(xs) <= b.mean <= Max(xs)
  {
    if |xs| > 0 {
      var s := SortedCopy(xs);
      SortedEnds(xs);
      InterpolateMonotone(s, 0.25, 0.5);
      InterpolateMonotone(s, 0.5, 0.75);
      InterpolateBounds(s, 0.25);
      InterpolateBounds(s, 0.75);
      MeanBetweenMinMax(xs);
      var b := BoxplotStats(xs).value;
      var hi := AtMost(xs, UpperFence(b.q1, b.q3));
      var lo := AtLeast(xs, LowerFence(b.q1, b.q3));
      if |hi| > 0 {
        var m := Max(hi);
        assert m in xs;
        var k :| 0 <= k < |xs| && xs[k] == m;
      }
      if |lo| > 0 {
        var m := Min(lo);
        assert m in xs;
        var k :| 0 <= k < |xs| && xs[k] == m;
      }
    }
  }

  /** The box of a nonempty sample: its quartiles, median and mean. */
  lemma BoxplotBox(xs: seq<real>)
    requires |xs| > 0
    ensures BoxplotStats(xs).Some?
    ensures BoxplotStats(xs).value.q1 == Interpolate(SortedCopy(xs), 0.25)
    ensures BoxplotStats(xs).value.med == Interpolate(SortedCopy(xs), 0.5)
    ensures BoxplotStats(xs).value.q3 == Interpolate(SortedCopy(xs), 0.75)
    ensures BoxplotStats(xs).value.mean == Mean(xs)
  {
    SortedEnds(xs);
  }

  /** With nothing above lim the filter keeps the whole sample. */
  lemma {:induction false} AtMostAll(xs: seq<real>, lim: real)
    requires forall i :: 0 <= i < |xs| ==> xs[i] <= lim
    ensures AtMost(xs, lim) == xs
  {
    if |xs| > 0 {
      AtMostAll(xs[1..], lim);
      assert xs == [xs[0]] + xs[1..];
    }
  }

  /** With nothing below lim the filter keeps the whole sample. */
  lemma {:induction false} AtLeastAll(xs: seq<real>, lim: real)
    requires forall i :: 0 <= i < |xs| ==> xs[i] >= lim
    ensures AtLeast(xs, lim) == xs
  {
    if |xs| > 0 {
      AtLeastAll(xs[1..], lim);
      assert xs == [xs[0]] + xs[1..];
    }
  }

  /** A limit at or above the maximum keeps the maximum. */
  lemma MaxAtMost(xs: seq<real>, lim: real)
    requires |xs| > 0 && Max(xs) <= lim
    ensures |AtMost(xs, lim)| > 0 && Max(AtMost(xs, lim)) == Max(xs)
  {
    AtMostAll(xs, lim);
  }

  /** A limit at or below the minimum keeps the minimum. */
  lemma MinAtLeast(xs: seq<real>, lim: real)
    requires |xs| > 0 && Min(xs) >= lim
    ensures |AtLeast(xs, lim)| > 0 && Min(AtLeast(xs, lim)) == Min(xs)
  {
    AtLeastAll(xs, lim);
  }

  /** When the sample's minimum lies at most 1.5 interquartile ranges
      below the first quartile q1 and its maximum at most 1.5 interquartile
      ranges above the third quartile q3, the whiskers reach the minimum and
      the maximum: the box plot is the five-number summary with the mean. */
  lemma WhiskersAtExtremes(xs: seq<real>, q1: real, q3: real)
    requires |xs| > 0
    requires q1 == Interpolate(SortedCopy(xs), 0.25) && q3 == Interpolate(SortedCopy(xs), 0.75)
    requires LowerFence(q1, q3) <= Min(xs) && Max(xs) <= UpperFence(q1, q3)
    ensures BoxplotStats(xs) ==
      Some(BoxStats(Min(xs), q1, Interpolate(SortedCopy(xs), 0.5), Mean(xs), q3, Max(xs)))
  {
    BoxplotStatsOrdered(xs);
    BoxplotBox(xs);
    MaxAtMost(xs, UpperFence(q1, q3));
    MinAtLeast(xs, LowerFence(q1, q3));
  }

  /** b lists the elements of a in the order given by the positions p, each
      position used once. */
  predicate Rearranges(a: seq<real>, b: seq<real>, p: seq<int>)
  {
    |a| == |b| == |p| &&
    (forall k :: 0 <= k < |p| ==> 0 <= p[k] < |a| && b[k] == a[p[k]]) &&
    (forall i, j :: 0 <= i < j < |p| ==> p[i] != p[j])
  }

  /** Rearranging the elements of a sequence keeps its multiset. */
  lemma {:induction false} RearrangeKeepsMultiset(a: seq<real>, b: seq<real>, p: seq<int>)
    requires Rearranges(a, b, p)
    ensures multiset(a) == multiset(b)
  {
    if |b| > 0 {
      var n := |b| - 1;
      var j := p[n];
      var a' := a[..j] + a[j + 1..];
      var p' := seq(n, k requires 0 <= k < n => if p[k] < j then p[k] else p[k] - 1);
      forall k | 0 <= k < n
        ensures 0 <= p'[k] < |a'| && b[..n][k] == a'[p'[k]]
      {
        assert p[k] != j;
      }
      RearrangeKeepsMultiset(a', b[..n], p');
      assert a == a[..j] + [a[j]] + a[j + 1..];
      assert b == b[..n] + [b[n]];
    }
  }

  /** Positions that an inverse map sends back are all different. */
  lemma InverseDistinct(p: seq<int>, q: seq<int>)
    requires forall k :: 0 <= k < |p| ==> 0 <= p[k] < |q| && q[p[k]] == k
    ensures forall i, j :: 0 <= i < j < |p| ==> p[i] != p[j]
  {
  }

  // ---------------------------------------------------------------------
  // The infiltration example

  /** Infiltration rates (mm/h) measured in 20 tests. */
  const Infiltration: seq<real> :=
    [48.0, 35.0, 37.0, 52.0, 43.0, 29.0, 61.0, 33.0, 44.0, 55.0, 69.0, 43.0, 22.0, 35.0, 38.0, 57.0, 53.0, 67.0, 62.0, 48.0]

  /** The same rates in ascending order. */
  const InfiltrationSorted: seq<real> :=
    [22.0, 29.0, 33.0, 35.0, 35.0, 37.0, 38.0, 43.0, 43.0, 44.0, 48.0, 48.0, 52.0, 53.0, 55.0, 57.0, 61.0, 62.0, 67.0, 69.0]

  /** Position in the measured list of each entry of the ascending list. */
  const SortingPositions: seq<int> :=
    [12, 5, 7, 1, 13, 2, 14, 4, 11, 8, 0, 19, 3, 16, 9, 15, 6, 18, 17, 10]

  /** The position in the ascending list of each measurement. */
  const SortedPositions: seq<int> :=
    [10, 3, 5, 12, 7, 1, 16, 2, 9, 14, 19, 8, 0, 4, 6, 15, 13, 18, 17, 11]

  lemma InfiltrationRearranged()
    ensures Rearranges(Infiltration, InfiltrationSorted, SortingPositions)
  {
    PositionsInverse();
    PositionsPick();
    InverseDistinct(SortingPositions, SortedPositions);
  }

  lemma PositionsInverse()
    ensures forall k :: 0 <= k < 20 ==> 0 <= SortingPositions[k] < 20 && SortedPositions[SortingPositions[k]] == k
  {
  }

  lemma PositionsPick()
    ensures forall k :: 0 <= k < 20 ==> InfiltrationSorted[k] == Infiltration[SortingPositions[k]]
  {
  }

  /** The ascending list holds exactly the measured rates. */
  lemma InfiltrationPermutation()
    ensures multiset(Infiltration) == multiset(InfiltrationSorted)
  {
    InfiltrationRearranged();
    RearrangeKeepsMultiset(Infiltration, InfiltrationSorted, SortingPositions);
  }

  /** The ascending list is in ascending order. */
  lemma InfiltrationSortedAscending()
    ensures SortedAsc(InfiltrationSorted)
  {
    SortedFromNeighbours(InfiltrationSorted);
  }

  /** Sorting the measured rates gives the ascending list. */
  lemma InfiltrationOrderStatistics()
    ensures SortedCopy(Infiltration) == InfiltrationSorted
  {
    InfiltrationSortedAscending();
    InfiltrationPermutation();
    SortedCopyIsSorting(Infiltration, InfiltrationSorted);
  }

  /** Median 46, first quartile 36.5, third quartile 55.5 of the
      ascending list, which runs from 22 to 69. */
  lemma InfiltrationQuartiles()
    ensures Interpolate(InfiltrationSorted, Fraction(0.0)) == 22.0
    ensures Interpolate(InfiltrationSorted, Fraction(25.0)) == 36.5
    ensures Interpolate(InfiltrationSorted, Fraction(50.0)) == 46.0
    ensures Interpolate(InfiltrationSorted, Fraction(75.0)) == 55.5
    ensures Interpolate(InfiltrationSorted, Fraction(100.0)) == 69.0
  {
    InfiltrationQ1();
    InfiltrationMedian();
    InfiltrationQ3();
    assert Fraction(0.0) == 0.0 && Fraction(100.0) == 1.0;
    InterpolateEnds(InfiltrationSorted);
  }

  lemma InfiltrationQ1()
    ensures Interpolate(InfiltrationSorted, Fraction(25.0)) == 36.5
  {
    assert Position(20, Fraction(25.0)) == 4.75;
    InterpolateAt(InfiltrationSorted, Fraction(25.0), 4);
  }

  lemma InfiltrationMedian()
    ensures Interpolate(InfiltrationSorted, Fraction(50.0)) == 46.0
  {
    assert Position(20, Fraction(50.0)) == 9.5;
    InterpolateAt(InfiltrationSorted, Fraction(50.0), 9);
  }

  lemma InfiltrationQ3()
    ensures Interpolate(InfiltrationSorted, Fraction(75.0)) == 55.5
  {
    assert Position(20, Fraction(75.0)) == 14.25;
    InterpolateAt(InfiltrationSorted, Fraction(75.0), 14);
  }

  /** A percentile read off a known sorted copy. */
  lemma PercentileOfSorted(xs: seq<real>, s: seq<real>, p: real, v: real)
    requires |s| > 0 && 0.0 <= p <= 100.0
    requires SortedCopy(xs) == s && Interpolate(s, Fraction(p)) == v
    ensures Percentile(xs, p) == Some(v)
  {
    assert |xs| == |multiset(xs)| == |multiset(s)| == |s|;
  }

  /** Any listing of the measured rates sorts to the ascending list. */
  lemma InfiltrationSortedCopy(xs: seq<real>)
    requires multiset(xs) == multiset(Infiltration)
    ensures SortedCopy(xs) == InfiltrationSorted
  {
    InfiltrationPermutation();
    InfiltrationSortedAscending();
    SortedCopyIsSorting(xs, InfiltrationSorted);
  }

  /** `np.percentile` of any sample whose ascending order is the list of
      measured rates: minimum 22, first quartile 36.5, median 46, third
      quartile 55.5, maximum 69. */
  lemma InfiltrationPercentiles(xs: seq<real>)
    requires SortedCopy(xs) == InfiltrationSorted
    ensures Percentile(xs, 0.0) == Some(22.0)
    ensures Percentile(xs, 25.0) == Some(36.5)
    ensures Percentile(xs, 50.0) == Some(46.0)
    ensures Percentile(xs, 75.0) == Some(55.5)
    ensures Percentile(xs, 100.0) == Some(69.0)
  {
    var s := InfiltrationSorted;
    InfiltrationQuartiles();
    PercentileOfSorted(xs, s, 0.0, 22.0);
    PercentileOfSorted(xs, s, 25.0, 36.5);
    PercentileOfSorted(xs, s, 50.0, 46.0);
    PercentileOfSorted(xs, s, 75.0, 55.5);
    PercentileOfSorted(xs, s, 100.0, 69.0);
  }

  /** The 20 rates add up to 931, a mean of 46.55 mm/h. */
  lemma InfiltrationMean()
    ensures Mean(Infiltration) == 46.55
  {
    InfiltrationSum();
    assert |Infiltration| as real == 20.0;
    assert 931.0 / 20.0 == 46.55;
  }

  lemma InfiltrationSum()
    ensures Sum(Infiltration) == 931.0
  {
    InfiltrationInRuns();
    assert Sum(InfiltrationRun1) == 215.0 && Sum(InfiltrationRun2) == 222.0;
    assert Sum(InfiltrationRun3) == 207.0 && Sum(InfiltrationRun4) == 287.0;
    SumOfParts(Infiltration, InfiltrationRun1, InfiltrationRun2, InfiltrationRun3, InfiltrationRun4);
  }

  /** The 20 rates in four runs of five tests, so that each sum is taken
      over a short list. */
  const InfiltrationRun1: seq<real> := [48.0, 35.0, 37.0, 52.0, 43.0]
  const InfiltrationRun2: seq<real> := [29.0, 61.0, 33.0, 44.0, 55.0]
  const InfiltrationRun3: seq<real> := [69.0, 43.0, 22.0, 35.0, 38.0]
  const InfiltrationRun4: seq<real> := [57.0, 53.0, 67.0, 62.0, 48.0]

  lemma InfiltrationInRuns()
    ensures Infiltration == InfiltrationRun1 + InfiltrationRun2 + InfiltrationRun3 + InfiltrationRun4
  {
  }

  /** A sample made of four runs sums to the sum of their sums. */
  lemma {:induction false} SumOfParts(xs: seq<real>, a: seq<real>, b: seq<real>, c: seq<real>, d: seq<real>)
    requires xs == a + b + c + d
    ensures Sum(xs) == Sum(a) + Sum(b) + Sum(c) + Sum(d)
  {
    var ab := a + b;
    var abc := ab + c;
    SumAppend(a, b);
    SumAppend(ab, c);
    SumAppend(abc, d);
  }

  lemma InfiltrationBoxValues(xs: seq<real>)
    requires SortedCopy(xs) == InfiltrationSorted
    ensures |xs| > 0 && Min(xs) == 22.0 && Max(xs) == 69.0
    ensures Interpolate(SortedCopy(xs), 0.25) == 36.5
    ensures Interpolate(SortedCopy(xs), 0.5) == 46.0
    ensures Interpolate(SortedCopy(xs), 0.75) == 55.5
  {
    InfiltrationExtremesOf(xs);
    InfiltrationQuartileFractions();
  }

  lemma InfiltrationExtremesOf(xs: seq<real>)
    requires SortedCopy(xs) == InfiltrationSorted
    ensures |xs| > 0 && Min(xs) == 22.0 && Max(xs) == 69.0
  {
    InfiltrationCount(xs);
    PercentileExtremes(xs);
    InfiltrationPercentiles(xs);
  }

  lemma InfiltrationCount(xs: seq<real>)
    requires SortedCopy(xs) == InfiltrationSorted
    ensures |xs| == 20
  {
    assert |xs| == |multiset(xs)| == |multiset(InfiltrationSorted)|;
  }

  lemma InfiltrationQuartileFractions()
    ensures Interpolate(InfiltrationSorted, 0.25) == 36.5
    ensures Interpolate(InfiltrationSorted, 0.5) == 46.0
    ensures Interpolate(InfiltrationSorted, 0.75) == 55.5
  {
    InfiltrationQuartiles();
    assert Fraction(25.0) == 0.25 && Fraction(50.0) == 0.5 && Fraction(75.0) == 0.75;
  }

  /** The box plot of the measured rates: quartiles 36.5 and 55.5, median
      46, mean 46.55, and whiskers at the extremes 22 and 69, since no rate
      lies below 8 or above 84, the fences 1.5 interquartile ranges outside
      the box. */
  lemma InfiltrationBoxplot()
    ensures BoxplotStats(Infiltration) == Some(BoxStats(22.0, 36.5, 46.0, 46.55, 55.5, 69.0))
  {
    InfiltrationMean();
    InfiltrationBoxplotOf(Infiltration);
  }

  /** The same for any listing of the measured rates with that mean. */
  lemma InfiltrationBoxplotOf(xs: seq<real>)
    requires multiset(xs) == multiset(Infiltration) && |xs| > 0 && Mean(xs) == 46.55
    ensures BoxplotStats(xs) == Some(BoxStats(22.0, 36.5, 46.0, 46.55, 55.5, 69.0))
  {
    InfiltrationSortedCopy(xs);
    InfiltrationBoxplotOfSorted(xs);
  }

  lemma InfiltrationBoxplotOfSorted(xs: seq<real>)
    requires SortedCopy(xs) == InfiltrationSorted && Mean(xs) == 46.55
    ensures BoxplotStats(xs) == Some(BoxStats(22.0, 36.5, 46.0, 46.55, 55.5, 69.0))
  {
    InfiltrationBoxValues(xs);
    assert LowerFence(36.5, 55.5) == 8.0 && UpperFence(36.5, 55.5) == 84.0;
    BoxplotOfSummary(xs, 22.0, 36.5, 46.0, 46.55, 55.5, 69.0);
  }

  /** The box plot read off a sample's summary values when its extremes
      lie within the fences. */
  lemma BoxplotOfSummary(xs: seq<real>, lo: real, q1: real, med: real, mean: real, q3: real, hi: real)
    requires |xs| > 0 && Min(xs) == lo && Max(xs) == hi && Mean(xs) == mean
    requires Interpolate(SortedCopy(xs), 0.25) == q1 && Interpolate(SortedCopy(xs), 0.5) == med
    requires Interpolate(SortedCopy(xs), 0.75) == q3
    requires LowerFence(q1, q3) <= lo && hi <= UpperFence(q1, q3)
    ensures BoxplotStats(xs) == Some(BoxStats(lo, q1, med, mean, q3, hi))
  {
    WhiskersAtExtremes(xs, q1, q3);
  }

  /** The quartiles of the measured rates themselves. */
  lemma InfiltrationSample()
    ensures Percentile(Infiltration, 25.0) == Some(36.5)
    ensures Percentile(Infiltration, 50.0) == Some(46.0)
    ensures Percentile(Infiltration, 75.0) == Some(55.5)
  {
    InfiltrationOrderStatistics();
    InfiltrationPercentiles(Infiltration);
  }
}
