/** The flow-duration curve of a daily discharge record: the record is
    copied, the copy is sorted by discharge from largest to smallest, the
    rows are numbered 1..N down the sorted table (`NrSup`) and each row
    gets the percentage of time `NrSup / N * 100` for which its discharge
    is equalled or exceeded. */
module FlowDuration {
  import opened OrderStatistics

  /** One row of the daily record: the day (the table's date index, as a
      day number) and its mean discharge `VazaoD` in m^3/s. */
  datatype DailyFlow = DailyFlow(day: int, flow: real)

  function FlowOf(d: DailyFlow): real
  {
    d.flow
  }

  /** The discharge column never increases down the table. */
  predicate FlowsDescending(s: seq<DailyFlow>)
  {
    SortedBy(s, FlowOf, false)
  }

  /** The `NrSup` column for N rows: 1, 2, ..., N. */
  function Positions(n: nat): (r: seq<nat>)
    ensures |r| == n
    ensures forall i :: 0 <= i < n ==> r[i] == i + 1
  {
    seq(n, i => i + 1)
  }

  /** The `Percent` column computed from a position column over N rows. */
  function PercentOf(nrSup: seq<nat>, n: nat): (r: seq<real>)
    requires n > 0 || |nrSup| == 0
    ensures |r| == |nrSup|
    ensures forall i :: 0 <= i < |nrSup| ==> r[i] == nrSup[i] as real / n as real * 100.0
  {
    seq(|nrSup|, i requires 0 <= i < |nrSup| => nrSup[i] as real / n as real * 100.0)
  }

  /** The table `CP`: the copied rows and the columns added to them. A
      column not yet added is empty. */
  class DurationTable {
    var rows: array<DailyFlow>
    var nrSup: seq<nat>
    var percent: seq<real>

    /** `CP = vazoesD.copy()`: a new table holding the same rows. */
    constructor Copy(daily: seq<DailyFlow>)
      ensures fresh(rows)
      ensures rows[..] == daily
      ensures nrSup == [] && percent == []
    {
      rows := new DailyFlow[|daily|](i requires 0 <= i < |daily| => daily[i]);
      nrSup := [];
      percent := [];
    }

    /** `CP.sort_values(by='VazaoD', ascending=False, inplace=True)`. */
    method SortByFlowDescending()
      modifies rows
      ensures FlowsDescending(rows[..])
      ensures multiset(rows[..]) == multiset(old(rows[..]))
    {
      SortValues(rows, FlowOf, false);
    }

    /** `CP['NrSup'] = NrSup` with `NrSup = range(1, NrObs + 1)`. */
    method AddPositions()
      modifies this
      ensures rows == old(rows) && percent == old(percent)
      ensures nrSup == Positions(rows.Length)
    {
      nrSup := Positions(rows.Length);
    }

    /** `CP['Percent'] = (CP['NrSup'] / NrObs) * 100`. */
    method AddPercent()
      requires |nrSup| == rows.Length
      modifies this
      ensures rows == old(rows) && nrSup == old(nrSup)
      ensures percent == PercentOf(nrSup, rows.Length)
    {
      percent := PercentOf(nrSup, rows.Length);
    }
  }

  /** The whole cell: copy, sort descending, number the rows, add the
      percentages. The record itself is left as it was. */
  method DurationCurve(daily: seq<DailyFlow>) returns (cp: DurationTable)
    ensures fresh(cp) && fresh(cp.rows)
    ensures multiset(cp.rows[..]) == multiset(daily)
    ensures FlowsDescending(cp.rows[..])
    ensures cp.nrSup == Positions(|daily|)
    ensures cp.percent == PercentOf(Positions(|daily|), |daily|)
  {
    cp := new DurationTable.Copy(daily);
    cp.SortByFlowDescending();
    cp.AddPositions();
    cp.AddPercent();
  }

  // ---------------------------------------------------------------------
  // What the columns mean

  /** Number of rows whose discharge is at least f. */
  function CountAtLeast(s: seq<DailyFlow>, f: real): (c: nat)
    ensures c <= |s|
  {
    if |s| == 0 then 0 else (if s[0].flow >= f then 1 else 0) + CountAtLeast(s[1..], f)
  }

  lemma DivideMonotone(a: real, b: real, n: real)
    requires n > 0.0 && a < b
    ensures a / n < b / n
  {
    var qa := a / n;
    var qb := b / n;
    assert qa * n == a && qb * n == b;
  }

  lemma DivideSelf(n: real)
    requires n > 0.0
    ensures n / n * 100.0 == 100.0
  {
  }

  /** The percentages rise strictly down the table, from 100/N on the
      first row to exactly 100 on the last. */
  lemma PercentIncreasing(n: nat)
    requires n > 0
    ensures var p := PercentOf(Positions(n), n);
      p[0] == 100.0 / n as real && p[n - 1] == 100.0 &&
      forall i, j :: 0 <= i < j < n ==> 0.0 < p[i] < p[j] <= 100.0
  {
    var p := PercentOf(Positions(n), n);
    var m := n as real;
    assert p[0] == 1.0 / m * 100.0;
    DivideSelf(m);
    forall i, j | 0 <= i < j < n
      ensures 0.0 < p[i] < p[j] <= 100.0
    {
      DivideMonotone((i + 1) as real, (j + 1) as real, m);
      DivideMonotone(0.0, (i + 1) as real, m);
      if j < n - 1 {
        DivideMonotone((j + 1) as real, m, m);
      }
    }
  }

  /** If the first k rows reach f and the others fall short of it, exactly
      k rows reach f. */
  lemma {:induction false} CountAtLeastPrefix(s: seq<DailyFlow>, f: real, k: nat)
    requires k <= |s|
    requires forall j :: 0 <= j < k ==> s[j].flow >= f
    ensures CountAtLeast(s, f) >= k
    ensures (forall j :: k <= j < |s| ==> s[j].flow < f) ==> CountAtLeast(s, f) == k
  {
    if |s| > 0 {
      assert forall j :: 0 <= j < |s| - 1 ==> s[1..][j] == s[j + 1];
      if k > 0 {
        CountAtLeastPrefix(s[1..], f, k - 1);
      } else {
        CountAtLeastPrefix(s[1..], f, 0);
      }
    }
  }

  /** On a table sorted by descending discharge the i-th row's discharge
      is reached on at least i + 1 rows, and on exactly i + 1 when the
      next row is strictly smaller (or there is none): its percentage is
      the share of days on which that discharge is equalled or exceeded,
      a lower bound for it under ties. */
  lemma PercentIsExceedance(s: seq<DailyFlow>, i: nat)
    requires FlowsDescending(s) && i < |s|
    ensures var p := PercentOf(Positions(|s|), |s|);
      p[i] <= CountAtLeast(s, s[i].flow) as real / |s| as real * 100.0 &&
      ((i + 1 == |s| || s[i + 1].flow < s[i].flow) ==>
        p[i] == CountAtLeast(s, s[i].flow) as real / |s| as real * 100.0)
  {
    var f := s[i].flow;
    DescendingAround(s, i);
    CountAtLeastPrefix(s, f, i + 1);
    var c := CountAtLeast(s, f);
    var m := |s| as real;
    var p := PercentOf(Positions(|s|), |s|);
    assert p[i] == (i + 1) as real / m * 100.0;
    if (i + 1) as real < c as real {
      DivideMonotone((i + 1) as real, c as real, m);
    }
  }

  /** In a table sorted by descending discharge, rows up to i reach the
      discharge of row i, and rows after i + 1 do not exceed that of row
      i + 1. */
  lemma DescendingAround(s: seq<DailyFlow>, i: nat)
    requires FlowsDescending(s) && i < |s|
    ensures forall j :: 0 <= j < i + 1 ==> s[j].flow >= s[i].flow
    ensures i + 1 < |s| ==> forall j :: i + 1 <= j < |s| ==> s[j].flow <= s[i + 1].flow
  {
    forall j | 0 <= j < i
      ensures s[j].flow >= s[i].flow
    {
      assert Ordered(s[j], s[i], FlowOf, false);
    }
    if i + 1 < |s| {
      forall j | i + 1 < j < |s|
        ensures s[j].flow <= s[i + 1].flow
      {
        assert Ordered(s[i + 1], s[j], FlowOf, false);
      }
    }
  }

}
