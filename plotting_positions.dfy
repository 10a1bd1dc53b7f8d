/** Empirical plotting positions of annual extremes (Weibull's formula)
    and the grids that turn return periods into probabilities.

    For maxima the series is ranked from the largest value down:
    `Rank = (N + 1) - rank()`, where pandas' `rank()` gives tied values
    the average of the ascending positions they occupy; the table is
    sorted on that rank, `Prob = Rank / (N + 1)` is the exceedance
    probability and `TR = 1 / Prob` the return period in years. For minima
    the ascending rank is floored (`rank() // 1`) and `Prob` is the
    probability of not exceeding the value. */
module PlottingPositions {
  import opened OrderStatistics

  /** One year of the annual series: the year and its extreme discharge. */
  datatype YearFlow = YearFlow(year: int, flow: real)

  /** A row once the `Rank` column has been added. */
  datatype RankedRow = RankedRow(year: int, flow: real, rank: real)

  function Flows(s: seq<YearFlow>): (r: seq<real>)
    ensures |r| == |s| && forall i :: 0 <= i < |s| ==> r[i] == s[i].flow
  {
    seq(|s|, i requires 0 <= i < |s| => s[i].flow)
  }

  function RankOf(r: RankedRow): real
  {
    r.rank
  }

  function RowFlow(r: RankedRow): real
  {
    r.flow
  }

  // ---------------------------------------------------------------------
  // Ranks

  /** Number of observations below v. */
  function CountLess(xs: seq<real>, v: real): (c: nat)
    ensures c <= |xs|
  {
    if |xs| == 0 then 0 else (if xs[0] < v then 1 else 0) + CountLess(xs[1..], v)
  }

  /** Number of observations equal to v. */
  function CountEqual(xs: seq<real>, v: real): (c: nat)
    ensures c <= |xs|
  {
    if |xs| == 0 then 0 else (if xs[0] == v then 1 else 0) + CountEqual(xs[1..], v)
  }

  /** Number of observations above v. */
  function CountGreater(xs: seq<real>, v: real): (c: nat)
    ensures c <= |xs|
  {
    if |xs| == 0 then 0 else (if xs[0] > v then 1 else 0) + CountGreater(xs[1..], v)
  }

  /** Every observation is below, equal to or above v. */
  lemma {:induction false} CountsPartition(xs: seq<real>, v: real)
    ensures CountLess(xs, v) + CountEqual(xs, v) + CountGreater(xs, v) == |xs|
  {
    if |xs| > 0 {
      CountsPartition(xs[1..], v);
    }
  }

  /** v is observed exactly when it is counted at least once. */
  lemma {:induction false} CountEqualMember(xs: seq<real>, v: real)
    ensures v in xs <==> CountEqual(xs, v) > 0
  {
    if |xs| > 0 {
      CountEqualMember(xs[1..], v);
      assert xs == [xs[0]] + xs[1..];
    }
  }

  /** Everything above or equal to w is above a smaller v. */
  lemma {:induction false} CountGreaterStep(xs: seq<real>, v: real, w: real)
    requires v < w
    ensures CountGreater(xs, v) >= CountGreater(xs, w) + CountEqual(xs, w)
  {
    if |xs| > 0 {
      CountGreaterStep(xs[1..], v, w);
    }
  }

  /** Everything below or equal to v is below a larger w. */
  lemma {:induction false} CountLessStep(xs: seq<real>, v: real, w: real)
    requires v < w
    ensures CountLess(xs, w) >= CountLess(xs, v) + CountEqual(xs, v)
  {
    if |xs| > 0 {
      CountLessStep(xs[1..], v, w);
    }
  }

  /** pandas `rank()` of an observed value v: the average of the ascending
      positions L + 1, ..., L + E held by the E copies of v, L being the
      number of smaller observations. */
  function AverageRank(xs: seq<real>, v: real): real
  {
    CountLess(xs, v) as real + (CountEqual(xs, v) + 1) as real / 2.0
  }

  /** `(N + 1) - rank()`: the rank counted from the largest value down. */
  function MaximaRank(xs: seq<real>, v: real): real
  {
    (|xs| + 1) as real - AverageRank(xs, v)
  }

  /** `rank() // 1`: the ascending rank rounded down. */
  function MinimaRank(xs: seq<real>, v: real): real
  {
    AverageRank(xs, v).Floor as real
  }

  /** The maxima rank is the average of the descending positions: the
      number of larger observations plus (E + 1) / 2. */
  lemma MaximaRankCounts(xs: seq<real>, v: real)
    ensures MaximaRank(xs, v) == CountGreater(xs, v) as real + (CountEqual(xs, v) + 1) as real / 2.0
  {
    CountsPartition(xs, v);
  }

  lemma HalfBounds(e: nat)
    requires e >= 1
    ensures 1.0 <= (e + 1) as real / 2.0 <= e as real
  {
  }

  /** Every observed value has a maxima rank between 1 and N. */
  lemma MaximaRankBounds(xs: seq<real>, v: real)
    requires v in xs
    ensures 1.0 <= MaximaRank(xs, v) <= |xs| as real
  {
    MaximaRankCounts(xs, v);
    CountEqualMember(xs, v);
    CountsPartition(xs, v);
    HalfBounds(CountEqual(xs, v));
  }

  /** Rank 1 goes to the largest value when it is not tied, and to no
      other value. */
  lemma MaximaRankOne(xs: seq<real>, v: real)
    requires v in xs
    ensures MaximaRank(xs, v) == 1.0 <==> CountGreater(xs, v) == 0 && CountEqual(xs, v) == 1
  {
    MaximaRankCounts(xs, v);
    CountEqualMember(xs, v);
    var e := CountEqual(xs, v);
    if e > 1 {
      HalfBounds(e);
      assert (e + 1) as real / 2.0 > 1.0;
    }
  }

  /** Rank N goes to the smallest value when it is not tied, and to no
      other value. */
  lemma MaximaRankLast(xs: seq<real>, v: real)
    requires v in xs
    ensures MaximaRank(xs, v) == |xs| as real <==> CountLess(xs, v) == 0 && CountEqual(xs, v) == 1
  {
    MaximaRankCounts(xs, v);
    CountEqualMember(xs, v);
    CountsPartition(xs, v);
    var e := CountEqual(xs, v);
    if e > 1 {
      assert (e + 1) as real / 2.0 < e as real;
    }
  }

  /** A larger discharge gets a strictly smaller maxima rank. */
  lemma MaximaRankOrder(xs: seq<real>, v: real, w: real)
    requires v in xs && w in xs && v < w
    ensures MaximaRank(xs, w) < MaximaRank(xs, v)
  {
    MaximaRankCounts(xs, v);
    MaximaRankCounts(xs, w);
    CountGreaterStep(xs, v, w);
    CountEqualMember(xs, v);
    CountEqualMember(xs, w);
    HalfBounds(CountEqual(xs, v));
    HalfBounds(CountEqual(xs, w));
  }

  /** The minima rank is the floor of the average rank: L + (E + 1) div 2. */
  lemma MinimaRankCounts(xs: seq<real>, v: real)
    ensures MinimaRank(xs, v) == (CountLess(xs, v) + (CountEqual(xs, v) + 1) / 2) as real
    ensures MinimaRank(xs, v) <= AverageRank(xs, v) < MinimaRank(xs, v) + 1.0
  {
    HalfFloor(CountLess(xs, v), CountEqual(xs, v));
    var k := CountLess(xs, v) + (CountEqual(xs, v) + 1) / 2;
    assert AverageRank(xs, v).Floor == k;
  }

  /** l + (e + 1) / 2 lies in [k, k + 1) for k = l + (e + 1) div 2. */
  lemma HalfFloor(l: nat, e: nat)
    ensures var k := l + (e + 1) / 2;
      k as real <= l as real + (e + 1) as real / 2.0 < (k + 1) as real &&
      (l as real + (e + 1) as real / 2.0).Floor == k
  {
    var h, m := (e + 1) / 2, (e + 1) % 2;
    assert (e + 1) as real == 2.0 * h as real + m as real;
    assert (e + 1) as real / 2.0 == h as real + m as real / 2.0;
  }

  /** Every observed value has a minima rank between 1 and N. */
  lemma MinimaRankBounds(xs: seq<real>, v: real)
    requires v in xs
    ensures 1.0 <= MinimaRank(xs, v) <= |xs| as real
  {
    MinimaRankCounts(xs, v);
    CountEqualMember(xs, v);
    CountsPartition(xs, v);
  }

  /** A larger discharge gets a strictly larger minima rank. */
  lemma MinimaRankOrder(xs: seq<real>, v: real, w: real)
    requires v in xs && w in xs && v < w
    ensures MinimaRank(xs, v) < MinimaRank(xs, w)
  {
    MinimaRankCounts(xs, v);
    MinimaRankCounts(xs, w);
    CountLessStep(xs, v, w);
    CountEqualMember(xs, v);
    CountEqualMember(xs, w);
  }

  // ---------------------------------------------------------------------
  // Probability and return period

  /** Weibull's plotting position `Rank / (N + 1)`. */
  function WeibullProbability(rank: real, n: nat): real
  {
    rank / (n + 1) as real
  }

  /** `1 / Prob`. */
  function ReturnPeriod(prob: real): real
    requires prob != 0.0
  {
    1.0 / prob
  }

  /** For ranks 1..N the probability lies strictly between 0 and 1, so the
      return period exceeds one year, equals (N + 1) / Rank and undoes the
      probability. */
  lemma WeibullBounds(rank: real, n: nat)
    requires 1.0 <= rank <= n as real
    ensures 0.0 < WeibullProbability(rank, n) < 1.0
    ensures ReturnPeriod(WeibullProbability(rank, n)) > 1.0
    ensures ReturnPeriod(WeibullProbability(rank, n)) == (n + 1) as real / rank
    ensures ReturnPeriod(WeibullProbability(rank, n)) * WeibullProbability(rank, n) == 1.0
  {
    var m := (n + 1) as real;
    var p := rank / m;
    assert p * m == rank;
    assert p < 1.0;
    var t := 1.0 / p;
    assert t * p == 1.0;
    assert t > 1.0;
    assert t == m / rank;
  }

  // ---------------------------------------------------------------------
  // The ranked table

  /** The `Rank` column of the maxima cell added to each year's row. */
  function MaximaRows(series: seq<YearFlow>): (r: seq<RankedRow>)
    ensures |r| == |series|
  {
    seq(|series|, i requires 0 <= i < |series| =>
      RankedRow(series[i].year, series[i].flow, MaximaRank(Flows(series), series[i].flow)))
  }

  /** The `Rank` column of the minima cell added to each year's row. */
  function MinimaRows(series: seq<YearFlow>): (r: seq<RankedRow>)
    ensures |r| == |series|
  {
    seq(|series|, i requires 0 <= i < |series| =>
      RankedRow(series[i].year, series[i].flow, MinimaRank(Flows(series), series[i].flow)))
  }

  /** A row carries the rank of its discharge within the sample. */
  predicate RankFits(r: RankedRow, sample: seq<real>, maxima: bool)
  {
    r.flow in sample &&
    r.rank == (if maxima then MaximaRank(sample, r.flow) else MinimaRank(sample, r.flow))
  }

  predicate RanksFit(rows: seq<RankedRow>, sample: seq<real>, maxima: bool)
  {
    forall i :: 0 <= i < |rows| ==> RankFits(rows[i], sample, maxima)
  }

  /** Rearranging the rows keeps every row's rank right. */
  lemma RanksFitPermuted(a: seq<RankedRow>, b: seq<RankedRow>, sample: seq<real>, maxima: bool)
    requires RanksFit(a, sample, maxima) && multiset(a) == multiset(b)
    ensures RanksFit(b, sample, maxima)
  {
    forall i | 0 <= i < |b|
      ensures RankFits(b[i], sample, maxima)
    {
      assert b[i] in multiset(a);
      var j :| 0 <= j < |a| && a[j] == b[i];
    }
  }

  /** Sorting on the rank orders the discharges: from the largest down
      for maxima, from the smallest up for minima. */
  lemma RankOrderIsFlowOrder(rows: seq<RankedRow>, sample: seq<real>, maxima: bool)
    requires RanksFit(rows, sample, maxima) && SortedBy(rows, RankOf, true)
    ensures SortedBy(rows, RowFlow, !maxima)
  {
    forall i, j | 0 <= i < j < |rows|
      ensures Ordered(rows[i], rows[j], RowFlow, !maxima)
    {
      assert RankFits(rows[i], sample, maxima) && RankFits(rows[j], sample, maxima);
      assert Ordered(rows[i], rows[j], RankOf, true);
      if maxima && rows[i].flow < rows[j].flow {
        MaximaRankOrder(sample, rows[i].flow, rows[j].flow);
      }
      if !maxima && rows[j].flow < rows[i].flow {
        MinimaRankOrder(sample, rows[j].flow, rows[i].flow);
      }
    }
  }

  /** A row's rank lies between 1 and N. */
  lemma RankInRange(r: RankedRow, sample: seq<real>, maxima: bool)
    requires RankFits(r, sample, maxima)
    ensures 1.0 <= r.rank <= |sample| as real
  {
    if maxima {
      MaximaRankBounds(sample, r.flow);
    } else {
      MinimaRankBounds(sample, r.flow);
    }
  }

  /** The Weibull probability and return period of a ranked row. */
  lemma RowWeibull(r: RankedRow, sample: seq<real>, maxima: bool)
    requires RankFits(r, sample, maxima)
    ensures 0.0 < WeibullProbability(r.rank, |sample|) < 1.0
    ensures ReturnPeriod(WeibullProbability(r.rank, |sample|)) > 1.0
    ensures ReturnPeriod(WeibullProbability(r.rank, |sample|)) * WeibullProbability(r.rank, |sample|) == 1.0
  {
    RankInRange(r, sample, maxima);
    WeibullBounds(r.rank, |sample|);
  }

  /** The annual table (`VazaoAMax`, `VazaoMax` or `VazaoMin`) once ranked:
      its rows, and the `Prob` and `TR` columns, empty until added. The
      ghost fields record the discharge column the ranks were computed
      from and which rule ranked it. */
  class RankedTable {
    var rows: array<RankedRow>
    var prob: seq<real>
    var tr: seq<real>
    ghost var sample: seq<real>
    ghost var maxima: bool

    ghost predicate Valid()
      reads this, rows
    {
      rows.Length == |sample| && RanksFit(rows[..], sample, maxima)
    }

    /** `T['Rank'] = (T['Q'].size + 1) - T['Q'].rank()`. */
    constructor RankMaxima(series: seq<YearFlow>)
      ensures Valid() && sample == Flows(series) && maxima
      ensures fresh(rows) && rows[..] == MaximaRows(series)
      ensures prob == [] && tr == []
    {
      sample := Flows(series);
      maxima := true;
      rows := new RankedRow[|series|](i requires 0 <= i < |series| =>
        RankedRow(series[i].year, series[i].flow, MaximaRank(Flows(series), series[i].flow)));
      prob := [];
      tr := [];
      new;
      assert rows[..] == MaximaRows(series);
      forall i | 0 <= i < rows.Length
        ensures RankFits(rows[i], sample, maxima)
      {
        assert sample[i] == rows[i].flow;
      }
    }

    /** `T['Rank'] = T['Q'].rank()` followed by `T['Rank'] = T['Rank'] // 1`. */
    constructor RankMinima(series: seq<YearFlow>)
      ensures Valid() && sample == Flows(series) && !maxima
      ensures fresh(rows) && rows[..] == MinimaRows(series)
      ensures prob == [] && tr == []
    {
      sample := Flows(series);
      maxima := false;
      rows := new RankedRow[|series|](i requires 0 <= i < |series| =>
        RankedRow(series[i].year, series[i].flow, MinimaRank(Flows(series), series[i].flow)));
      prob := [];
      tr := [];
      new;
      assert rows[..] == MinimaRows(series);
      forall i | 0 <= i < rows.Length
        ensures RankFits(rows[i], sample, maxima)
      {
        assert sample[i] == rows[i].flow;
      }
    }

    /** `T.sort_values("Rank", inplace=True)`: ascending ranks, which puts
        the discharges in descending order for maxima and ascending order
        for minima. */
    method SortByRank()
      requires Valid()
      modifies rows
      ensures Valid()
      ensures multiset(rows[..]) == multiset(old(rows[..]))
      ensures SortedBy(rows[..], RankOf, true)
      ensures SortedBy(rows[..], RowFlow, !maxima)
    {
      SortValues(rows, RankOf, true);
      RanksFitPermuted(old(rows[..]), rows[..], sample, maxima);
      RankOrderIsFlowOrder(rows[..], sample, maxima);
    }

    /** `T['Prob'] = T['Rank'] / (T['Q'].size + 1)`. */
    method AddProbability()
      requires Valid()
      modifies this
      ensures Valid() && rows == old(rows) && tr == old(tr)
      ensures sample == old(sample) && maxima == old(maxima)
      ensures |prob| == rows.Length
      ensures forall i :: 0 <= i < rows.Length ==> prob[i] == WeibullProbability(rows[i].rank, |sample|)
      ensures forall i :: 0 <= i < rows.Length ==> 0.0 < prob[i] < 1.0
    {
      var r := rows;
      prob := seq(r.Length, i reads r requires 0 <= i < r.Length => WeibullProbability(r[i].rank, r.Length));
      forall i | 0 <= i < rows.Length
        ensures 0.0 < prob[i] < 1.0
      {
        assert RankFits(rows[..][i], sample, maxima);
        RowWeibull(rows[i], sample, maxima);
      }
    }

    /** `T['TR'] = 1 / T['Prob']`. */
    method AddReturnPeriod()
      requires Valid() && |prob| == rows.Length
      requires forall i :: 0 <= i < rows.Length ==> prob[i] == WeibullProbability(rows[i].rank, |sample|)
      modifies this
      ensures Valid() && rows == old(rows) && prob == old(prob)
      ensures sample == old(sample) && maxima == old(maxima)
      ensures |tr| == rows.Length
      ensures forall i :: 0 <= i < rows.Length ==>
        prob[i] != 0.0 && tr[i] == ReturnPeriod(prob[i]) && tr[i] > 1.0 && tr[i] * prob[i] == 1.0
    {
      forall i | 0 <= i < rows.Length
        ensures prob[i] != 0.0
        ensures ReturnPeriod(prob[i]) > 1.0 && ReturnPeriod(prob[i]) * prob[i] == 1.0
      {
        assert RankFits(rows[..][i], sample, maxima);
        RowWeibull(rows[i], sample, maxima);
      }
      var p := prob;
      tr := seq(|p|, i requires 0 <= i < |p| && p[i] != 0.0 => ReturnPeriod(p[i]));
    }
  }

  /** The maxima cell: rank from the largest down, sort on the rank, add
      the exceedance probability and the return period. */
  method WeibullMaxima(series: seq<YearFlow>) returns (t: RankedTable)
    ensures fresh(t) && fresh(t.rows) && t.Valid()
    ensures multiset(t.rows[..]) == multiset(MaximaRows(series))
    ensures SortedBy(t.rows[..], RankOf, true) && SortedBy(t.rows[..], RowFlow, false)
    ensures t.rows.Length == |t.prob| == |t.tr| == |series|
    ensures forall i :: 0 <= i < |series| ==>
      t.prob[i] == WeibullProbability(t.rows[i].rank, |series|) && 0.0 < t.prob[i] < 1.0 &&
      t.tr[i] > 1.0 && t.tr[i] * t.prob[i] == 1.0
  {
    t := new RankedTable.RankMaxima(series);
    t.SortByRank();
    t.AddProbability();
    t.AddReturnPeriod();
  }

  /** The minima cell: floored ascending rank, sort on the rank, add the
      probability of not exceeding and the return period. */
  method WeibullMinima(series: seq<YearFlow>) returns (t: RankedTable)
    ensures fresh(t) && fresh(t.rows) && t.Valid()
    ensures multiset(t.rows[..]) == multiset(MinimaRows(series))
    ensures SortedBy(t.rows[..], RankOf, true) && SortedBy(t.rows[..], RowFlow, true)
    ensures t.rows.Length == |t.prob| == |t.tr| == |series|
    ensures forall i :: 0 <= i < |series| ==>
      t.prob[i] == WeibullProbability(t.rows[i].rank, |series|) && 0.0 < t.prob[i] < 1.0 &&
      t.tr[i] > 1.0 && t.tr[i] * t.prob[i] == 1.0
  {
    t := new RankedTable.RankMinima(series);
    t.SortByRank();
    t.AddProbability();
    t.AddReturnPeriod();
  }

  // ---------------------------------------------------------------------
  // Return-period grids

  /** `np.arange(start, stop, 1)`: the integers start, ..., stop - 1. */
  method Arange(start: int, stop: int) returns (a: array<int>)
    ensures fresh(a)
    ensures a.Length == if stop > start then stop - start else 0
    ensures forall k :: 0 <= k < a.Length ==> a[k] == start + k
  {
    var n := if stop > start then stop - start else 0;
    a := new int[n];
    for k := 0 to n
      invariant forall j :: 0 <= j < k ==> a[j] == start + j
    {
      a[k] := start + k;
    }
  }

  /** Probability of not exceeding the T-year maximum: `1 - 1/T`. */
  function NonExceedance(t: int): real
    requires t > 0
  {
    1.0 - 1.0 / t as real
  }

  /** Probability that a year's minimum falls to or below the T-year minimum: `1/T`. */
  function MinimumProbability(t: int): real
    requires t > 0
  {
    1.0 / t as real
  }

  /** The loop `for item in TR: Prob[i] = 1 - (1/item); i = i + 1`. */
  method FillNonExceedance(tr: array<int>, prob: array<real>)
    requires tr != prob as object && tr.Length == prob.Length
    requires forall k :: 0 <= k < tr.Length ==> tr[k] > 0
    modifies prob
    ensures forall k :: 0 <= k < prob.Length ==> prob[k] == NonExceedance(tr[k])
  {
    var i := 0;
    while i < tr.Length
      invariant 0 <= i <= tr.Length
      invariant forall k :: 0 <= k < i ==> prob[k] == NonExceedance(tr[k])
    {
      prob[i] := 1.0 - 1.0 / tr[i] as real;
      i := i + 1;
    }
  }

  /** The loop `for item in TR: Prob[i] = 1/item; i = i + 1`. */
  method FillMinimumProbability(tr: array<int>, prob: array<real>)
    requires tr != prob as object && tr.Length == prob.Length
    requires forall k :: 0 <= k < tr.Length ==> tr[k] > 0
    modifies prob
    ensures forall k :: 0 <= k < prob.Length ==> prob[k] == MinimumProbability(tr[k])
  {
    var i := 0;
    while i < tr.Length
      invariant 0 <= i <= tr.Length
      invariant forall k :: 0 <= k < i ==> prob[k] == MinimumProbability(tr[k])
    {
      prob[i] := 1.0 / tr[i] as real;
      i := i + 1;
    }
  }

  lemma ReciprocalDecreasing(x: real, y: real)
    requires 0.0 < x < y
    ensures 0.0 < 1.0 / y < 1.0 / x
  {
    var a := 1.0 / x;
    var b := 1.0 / y;
    assert a * x == 1.0 && b * y == 1.0;
    assert b > 0.0;
    var d := y - x;
    ProductPositive(b, d);
    assert b * x == b * y - b * d;
  }

  lemma ProductPositive(a: real, b: real)
    requires a > 0.0 && b > 0.0
    ensures a * b > 0.0
  {
  }

  lemma ReciprocalInverse(x: real)
    requires x != 0.0
    ensures 1.0 / x != 0.0 && 1.0 / (1.0 / x) == x
  {
    var a := 1.0 / x;
    assert a * x == 1.0;
  }

  /** 1/T falls strictly as the return period grows, stays in (0, 1] and
      gives the return period back. */
  lemma MinimumProbabilityProperties(t: int, u: int)
    requires 0 < t < u
    ensures 0.0 < MinimumProbability(u) < MinimumProbability(t) <= 1.0
    ensures 1.0 / MinimumProbability(t) == t as real
  {
    ReciprocalDecreasing(t as real, u as real);
    if t > 1 {
      ReciprocalDecreasing(1.0, t as real);
    }
    ReciprocalInverse(t as real);
  }

  /** 1 - 1/T rises strictly with the return period, stays in [0, 1) and
      gives the return period back as 1 / (1 - p). */
  lemma NonExceedanceProperties(t: int, u: int)
    requires 0 < t < u
    ensures 0.0 <= NonExceedance(t) < NonExceedance(u) < 1.0
    ensures 1.0 / (1.0 - NonExceedance(t)) == t as real
  {
    MinimumProbabilityProperties(t, u);
  }

  /** The maxima grid: return periods 2..1000 years and the probability of
      not exceeding each, rising strictly from 0.5 towards 1. */
  method MaximaGrid() returns (tr: array<int>, prob: array<real>)
    ensures tr.Length == prob.Length == 999
    ensures forall k :: 0 <= k < 999 ==> tr[k] == k + 2 && prob[k] == NonExceedance(tr[k])
    ensures prob[0] == 0.5
    ensures forall k, l :: 0 <= k < l < 999 ==> 0.5 <= prob[k] < prob[l] < 1.0
    ensures forall k :: 0 <= k < 999 ==> 1.0 / (1.0 - prob[k]) == tr[k] as real
  {
    tr := Arange(2, 1001);
    prob := new real[999](_ => 0.0);
    FillNonExceedance(tr, prob);
    forall k, l | 0 <= k < l < 999
      ensures 0.5 <= prob[k] < prob[l] < 1.0
    {
      NonExceedanceProperties(tr[k], tr[l]);
      if k > 0 {
        NonExceedanceProperties(tr[0], tr[k]);
      }
    }
    forall k | 0 <= k < 999
      ensures 1.0 / (1.0 - prob[k]) == tr[k] as real
    {
      NonExceedanceProperties(tr[k], tr[k] + 1);
    }
  }

  /** The minima grid: return periods 1..100 years and the probability 1/T
      of not exceeding each, falling strictly from 1. */
  method MinimaGrid() returns (tr: array<int>, prob: array<real>)
    ensures tr.Length == prob.Length == 100
    ensures forall k :: 0 <= k < 100 ==> tr[k] == k + 1 && prob[k] == MinimumProbability(tr[k])
    ensures prob[0] == 1.0
    ensures forall k, l :: 0 <= k < l < 100 ==> 0.0 < prob[l] < prob[k] <= 1.0
    ensures forall k :: 0 <= k < 100 ==> 1.0 / prob[k] == tr[k] as real
  {
    tr := Arange(1, 101);
    prob := new real[100](_ => 0.0);
    FillMinimumProbability(tr, prob);
    forall k, l | 0 <= k < l < 100
      ensures 0.0 < prob[l] < prob[k] <= 1.0
    {
      MinimumProbabilityProperties(tr[k], tr[l]);
    }
    forall k | 0 <= k < 100
      ensures 1.0 / prob[k] == tr[k] as real
    {
      MinimumProbabilityProperties(tr[k], tr[k] + 1);
    }
  }

  // ---------------------------------------------------------------------
  // Quantiles of a fitted normal distribution

  /** `norm.ppf(q, loc, scale)` is loc + scale z, z being the standard
      normal quantile of q; the z values come in as a parameter. */
  function NormalQuantile(z: real, loc: real, scale: real): real
  {
    loc + scale * z
  }

  /** The inverse step: the standard score of a value. */
  function StandardScore(x: real, loc: real, scale: real): real
    requires scale != 0.0
  {
    (x - loc) / scale
  }

  /** The quantile and the standard score undo each other. */
  lemma StandardScoreInverse(z: real, loc: real, scale: real)
    requires scale != 0.0
    ensures StandardScore(NormalQuantile(z, loc, scale), loc, scale) == z
    ensures NormalQuantile(StandardScore(z, loc, scale), loc, scale) == z
  {
    var s := scale * z;
    assert s / scale == z;
    var w := (z - loc) / scale;
    assert scale * w == z - loc;
  }

  /** A larger standard quantile gives a larger discharge when the spread
      is positive. */
  lemma NormalQuantileMonotone(z1: real, z2: real, loc: real, scale: real)
    requires z1 < z2 && scale > 0.0
    ensures NormalQuantile(z1, loc, scale) < NormalQuantile(z2, loc, scale)
  {
    var d := z2 - z1;
    assert scale * d > 0.0;
    assert scale * z2 == scale * z1 + scale * d;
  }

  /** The loop `for item in Prob: VazaoNorm[i] = norm.ppf(q=item, loc, scale)`
      with z[i] the standard quantile of Prob[i]. It overwrites the first
      |z| slots of the preallocated series and leaves the rest as they
      were (the minima cell reuses the 999-slot series of the maxima cell
      and rewrites only its first 100 slots). */
  method FillQuantiles(z: seq<real>, loc: real, scale: real, q: array<real>)
    requires |z| <= q.Length
    modifies q
    ensures forall k :: 0 <= k < |z| ==> q[k] == NormalQuantile(z[k], loc, scale)
    ensures forall k :: |z| <= k < q.Length ==> q[k] == old(q[k])
    ensures scale > 0.0 && (forall k, l :: 0 <= k < l < |z| ==> z[k] < z[l]) ==>
      forall k, l :: 0 <= k < l < |z| ==> q[k] < q[l]
  {
    var i := 0;
    while i < |z|
      invariant 0 <= i <= |z|
      invariant forall k :: 0 <= k < i ==> q[k] == NormalQuantile(z[k], loc, scale)
      invariant forall k :: i <= k < q.Length ==> q[k] == old(q[k])
    {
      q[i] := loc + scale * z[i];
      i := i + 1;
    }
    if scale > 0.0 && (forall k, l :: 0 <= k < l < |z| ==> z[k] < z[l]) {
      forall k, l | 0 <= k < l < |z|
        ensures q[k] < q[l]
      {
        NormalQuantileMonotone(z[k], z[l], loc, scale);
      }
    }
  }
}
