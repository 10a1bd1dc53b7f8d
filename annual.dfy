/** Annual series extracted from a daily discharge record: the record is
    grouped by year (the calendar year, or the hydrological year that ends
    in August) and each group is reduced to its maximum, minimum and mean
    and to the dates of its first maximum and first minimum. Also the
    reordering of the twelve monthly means so that they start at the
    first month of the hydrological year. */
module AnnualSeries {
  import opened Sums
  import Frequency

  /** A calendar date; months run 1..12. */
  datatype Date = Date(year: int, month: int, day: int)

  /** One day of the record: its date (the table's index) and discharge. */
  datatype Observation = Observation(date: Date, flow: real)

  /** How a date is labelled with a year: `index.year`, or
      `index.to_period('A-AUG')`, whose periods end in August and carry
      the year in which they end. */
  datatype YearRule = Calendar | EndingAugust

  function YearOf(rule: YearRule, d: Date): int
  {
    match rule
    case Calendar => d.year
    case EndingAugust => if d.month >= 9 then d.year + 1 else d.year
  }

  /** The hydrological year y runs from September of y - 1 to August of y. */
  lemma WaterYearSpan(d: Date, y: int)
    requires 1 <= d.month <= 12
    ensures YearOf(EndingAugust, d) == y <==>
      (d.year == y - 1 && 9 <= d.month) || (d.year == y && d.month <= 8)
  {
  }

  /** Lexicographic order of dates. */
  predicate NotAfter(a: Date, b: Date)
  {
    a.year < b.year ||
    (a.year == b.year && (a.month < b.month || (a.month == b.month && a.day <= b.day)))
  }

  /** Which days of the record a selection keeps: those of one year, those
      of one calendar month (any year), or those between two dates
      inclusive. */
  datatype Selection = InYear(rule: YearRule, year: int) | InMonth(month: int) | Between(first: Date, last: Date)

  predicate Selects(s: Selection, o: Observation)
  {
    match s
    case InYear(rule, y) => YearOf(rule, o.date) == y
    case InMonth(m) => o.date.month == m
    case Between(first, last) => NotAfter(first, o.date) && NotAfter(o.date, last)
  }

  /** The days of the record that the selection keeps, in record order. */
  function Select(obs: seq<Observation>, s: Selection): (r: seq<Observation>)
    ensures |r| <= |obs|
    ensures forall o :: o in r <==> o in obs && Selects(s, o)
  {
    if |obs| == 0 then []
    else
      var rest := Select(obs[1..], s);
      assert forall o :: o in obs <==> o == obs[0] || o in obs[1..];
      if Selects(s, obs[0]) then [obs[0]] + rest else rest
  }

  /** Whether the selection keeps each day of the record. */
  function Marks(obs: seq<Observation>, s: Selection): (b: seq<bool>)
    ensures |b| == |obs| && forall i :: 0 <= i < |obs| ==> b[i] == Selects(s, obs[i])
  {
    seq(|obs|, i requires 0 <= i < |obs| => Selects(s, obs[i]))
  }

  /** Each position one further on. */
  function Shift(p: seq<nat>): (q: seq<nat>)
    ensures |q| == |p| && forall k :: 0 <= k < |p| ==> q[k] == p[k] + 1
  {
    seq(|p|, k requires 0 <= k < |p| => p[k] + 1)
  }

  /** p lists, ascending, exactly the positions of b holding true. */
  predicate ListsTrue(b: seq<bool>, p: seq<nat>)
  {
    (forall k :: 0 <= k < |p| ==> p[k] < |b| && b[p[k]]) &&
    (forall k, l :: 0 <= k < l < |p| ==> p[k] < p[l]) &&
    (forall i :: 0 <= i < |b| && b[i] ==> i in p)
  }

  /** The positions holding true, ascending. */
  function TruePositions(b: seq<bool>): (p: seq<nat>)
    ensures ListsTrue(b, p)
  {
    if |b| == 0 then []
    else
      var rest := TruePositions(b[1..]);
      var q := Shift(rest);
      ShiftedPositions(b, rest);
      if b[0] then ConsPositions(b, q); [0] + q else SkipPositions(b, q); q
  }

  /** Positions in the tail, one further on, are the positions after the
      first. */
  lemma ShiftedPositions(b: seq<bool>, rest: seq<nat>)
    requires |b| > 0 && ListsTrue(b[1..], rest)
    ensures forall k :: 0 <= k < |rest| ==> 1 <= Shift(rest)[k] < |b| && b[Shift(rest)[k]]
    ensures forall i :: 1 <= i < |b| && b[i] ==> i in Shift(rest)
    ensures forall k, l :: 0 <= k < l < |rest| ==> Shift(rest)[k] < Shift(rest)[l]
  {
    var q := Shift(rest);
    forall k | 0 <= k < |q|
      ensures q[k] < |b| && b[q[k]]
    {
      assert b[1..][rest[k]] == b[q[k]];
    }
    forall i | 1 <= i < |b| && b[i]
      ensures i in q
    {
      assert b[1..][i - 1];
      var k :| 0 <= k < |rest| && rest[k] == i - 1;
      assert q[k] == i;
    }
  }

  lemma SkipPositions(b: seq<bool>, q: seq<nat>)
    requires |b| > 0 && !b[0]
    requires forall k :: 0 <= k < |q| ==> 1 <= q[k] < |b| && b[q[k]]
    requires forall k, l :: 0 <= k < l < |q| ==> q[k] < q[l]
    requires forall i :: 1 <= i < |b| && b[i] ==> i in q
    ensures ListsTrue(b, q)
  {
  }

  lemma ConsPositions(b: seq<bool>, q: seq<nat>)
    requires |b| > 0 && b[0]
    requires forall k :: 0 <= k < |q| ==> 1 <= q[k] < |b| && b[q[k]]
    requires forall k, l :: 0 <= k < l < |q| ==> q[k] < q[l]
    requires forall i :: 1 <= i < |b| && b[i] ==> i in q
    ensures ListsTrue(b, [0] + q)
  {
    var p := [0] + q;
    forall k | 1 <= k < |p|
      ensures p[k] == q[k - 1]
    {
    }
    forall i | 0 <= i < |b| && b[i]
      ensures i in p
    {
      if i == 0 {
        assert p[0] == 0;
      } else {
        var k :| 0 <= k < |q| && q[k] == i;
        assert p[k + 1] == i;
      }
    }
  }

  /** The positions of the days the selection keeps, ascending. */
  function Positions(obs: seq<Observation>, s: Selection): (p: seq<nat>)
    ensures forall k :: 0 <= k < |p| ==> p[k] < |obs| && Selects(s, obs[p[k]])
    ensures forall k, l :: 0 <= k < l < |p| ==> p[k] < p[l]
    ensures forall i :: 0 <= i < |obs| && Selects(s, obs[i]) ==> i in p
  {
    TruePositions(Marks(obs, s))
  }

  /** The selection lists the record's days at those positions and no
      others, keeping their order and their repetitions. */
  lemma SelectInRecordOrder(obs: seq<Observation>, s: Selection)
    ensures |Select(obs, s)| == |Positions(obs, s)|
    ensures forall k :: 0 <= k < |Positions(obs, s)| ==> Select(obs, s)[k] == obs[Positions(obs, s)[k]]
  {
    SelectIsKeep(obs, s);
    KeepAtPositions(obs, Marks(obs, s));
  }

  /** The days whose mark is true, in record order. */
  function Keep(obs: seq<Observation>, b: seq<bool>): seq<Observation>
    requires |b| == |obs|
  {
    if |obs| == 0 then [] else (if b[0] then [obs[0]] else []) + Keep(obs[1..], b[1..])
  }

  lemma {:induction false} SelectIsKeep(obs: seq<Observation>, s: Selection)
    ensures Select(obs, s) == Keep(obs, Marks(obs, s))
  {
    if |obs| > 0 {
      SelectIsKeep(obs[1..], s);
      var b := Marks(obs, s);
      assert Marks(obs[1..], s) == b[1..];
    }
  }

  lemma {:induction false} KeepAtPositions(obs: seq<Observation>, b: seq<bool>)
    requires |b| == |obs|
    ensures |Keep(obs, b)| == |TruePositions(b)|
    ensures forall k :: 0 <= k < |Keep(obs, b)| ==> Keep(obs, b)[k] == obs[TruePositions(b)[k]]
  {
    if |obs| > 0 {
      KeepAtPositions(obs[1..], b[1..]);
      var g', p' := Keep(obs[1..], b[1..]), TruePositions(b[1..]);
      assert Keep(obs, b) == if b[0] then [obs[0]] + g' else g';
      assert TruePositions(b) == if b[0] then [0] + Shift(p') else Shift(p');
      KeepStep(obs, b[0], g', p');
    }
  }

  /** One step of KeepAtPositions: the tail's days at the tail's positions,
      moved one further on, with the first day in front when it is kept. */
  lemma KeepStep(obs: seq<Observation>, first: bool, g': seq<Observation>, p': seq<nat>)
    requires |obs| > 0 && |g'| == |p'|
    requires forall k :: 0 <= k < |p'| ==> p'[k] < |obs| - 1 && g'[k] == obs[1..][p'[k]]
    ensures var g, p := (if first then [obs[0]] + g' else g'), (if first then [0] + Shift(p') else Shift(p'));
      |g| == |p| && forall k :: 0 <= k < |g| ==> g[k] == obs[p[k]]
  {
    var q := Shift(p');
    forall k | 0 <= k < |p'|
      ensures g'[k] == obs[q[k]]
    {
      assert obs[1..][p'[k]] == obs[q[k]];
    }
    if first {
      var g, p := [obs[0]] + g', [0] + q;
      forall k | 1 <= k < |g|
        ensures g[k] == obs[p[k]]
      {
        assert g[k] == g'[k - 1] && p[k] == q[k - 1];
      }
    }
  }

  /** `record[first:last].copy()`: the days from first to last inclusive,
      in record order. */
  function Slice(obs: seq<Observation>, first: Date, last: Date): (r: seq<Observation>)
    ensures |r| <= |obs|
    ensures forall o :: o in r <==> o in obs && NotAfter(first, o.date) && NotAfter(o.date, last)
  {
    Select(obs, Between(first, last))
  }

  // ---------------------------------------------------------------------
  // Grouping by year

  function YearLabels(obs: seq<Observation>, rule: YearRule): (ys: seq<int>)
    ensures |ys| == |obs|
    ensures forall i :: 0 <= i < |obs| ==> ys[i] == YearOf(rule, obs[i].date)
  {
    seq(|obs|, i requires 0 <= i < |obs| => YearOf(rule, obs[i].date))
  }

  /** The group keys of `groupby(...)`: the years present, ascending. */
  function Years(obs: seq<Observation>, rule: YearRule): seq<int>
  {
    Frequency.Keys(YearLabels(obs, rule))
  }

  /** The days labelled with year y, in record order. */
  function Group(obs: seq<Observation>, rule: YearRule, y: int): (g: seq<Observation>)
    ensures forall o :: o in g <==> o in obs && YearOf(rule, o.date) == y
  {
    Select(obs, InYear(rule, y))
  }

  function GroupFlows(g: seq<Observation>): (f: seq<real>)
    ensures |f| == |g| && forall i :: 0 <= i < |g| ==> f[i] == g[i].flow
  {
    seq(|g|, i requires 0 <= i < |g| => g[i].flow)
  }

  /** Every key of the grouping has at least one day. */
  lemma GroupOfYearNonEmpty(obs: seq<Observation>, rule: YearRule, y: int)
    requires y in Years(obs, rule)
    ensures |Group(obs, rule, y)| > 0
  {
    var ys := YearLabels(obs, rule);
    assert y in ys;
    var i :| 0 <= i < |ys| && ys[i] == y;
    assert obs[i] in Group(obs, rule, y);
  }

  /** Position of the first occurrence of v in f. */
  function FirstIndexOf(f: seq<real>, v: real): (k: nat)
    requires v in f
    ensures k < |f| && f[k] == v
    ensures forall j :: 0 <= j < k ==> f[j] != v
  {
    if f[0] == v then 0
    else
      assert v in f[1..];
      1 + FirstIndexOf(f[1..], v)
  }

  /** What the grouping keeps for one year: maximum and the date of its
      first occurrence (`max`, `idxmax`), minimum and the date of its first
      occurrence (`min`, `idxmin`), and the mean. */
  datatype YearSummary = YearSummary(year: int, max: real, maxDate: Date, min: real, minDate: Date, mean: real)

  function Summarise(g: seq<Observation>, y: int): YearSummary
    requires |g| > 0
  {
    var f := GroupFlows(g);
    YearSummary(y, Max(f), g[FirstIndexOf(f, Max(f))].date,
                Min(f), g[FirstIndexOf(f, Min(f))].date, Mean(f))
  }

  /** One summary per year, years ascending. */
  function AnnualSummaries(obs: seq<Observation>, rule: YearRule): (r: seq<YearSummary>)
    ensures |r| == |Years(obs, rule)|
  {
    var ys := Years(obs, rule);
    seq(|ys|, i requires 0 <= i < |ys| =>
      GroupOfYearNonEmpty(obs, rule, ys[i]);
      Summarise(Group(obs, rule, ys[i]), ys[i]))
  }

  /** The summary of one year: its maximum is the largest discharge of
      that year and its minimum the smallest; both are dated on the first
      day of the year that reaches them; the mean lies between them. */
  lemma SummarySound(g: seq<Observation>, y: int)
    requires |g| > 0
    ensures var s := Summarise(g, y);
      (forall o :: o in g ==> s.min <= o.flow <= s.max) &&
      (exists k :: 0 <= k < |g| && g[k].date == s.maxDate && g[k].flow == s.max &&
         forall j :: 0 <= j < k ==> g[j].flow < s.max) &&
      (exists k :: 0 <= k < |g| && g[k].date == s.minDate && g[k].flow == s.min &&
         forall j :: 0 <= j < k ==> g[j].flow > s.min) &&
      s.min <= s.mean <= s.max
  {
    SummaryBounds(g, y);
    SummaryMaxDate(g, y);
    SummaryMinDate(g, y);
  }

  lemma SummaryBounds(g: seq<Observation>, y: int)
    requires |g| > 0
    ensures var s := Summarise(g, y);
      (forall o :: o in g ==> s.min <= o.flow <= s.max) && s.min <= s.mean <= s.max
  {
    var f := GroupFlows(g);
    var s := Summarise(g, y);
    MeanBetweenMinMax(f);
    forall o | o in g
      ensures s.min <= o.flow <= s.max
    {
      var i :| 0 <= i < |g| && g[i] == o;
      assert f[i] == o.flow;
    }
  }

  lemma SummaryMaxDate(g: seq<Observation>, y: int)
    requires |g| > 0
    ensures var s := Summarise(g, y);
      exists k :: 0 <= k < |g| && g[k].date == s.maxDate && g[k].flow == s.max &&
        forall j :: 0 <= j < k ==> g[j].flow < s.max
  {
    var f := GroupFlows(g);
    var kmax := FirstIndexOf(f, Max(f));
    assert g[kmax].flow == Max(f);
    assert forall j :: 0 <= j < kmax ==> g[j].flow < Max(f);
  }

  lemma SummaryMinDate(g: seq<Observation>, y: int)
    requires |g| > 0
    ensures var s := Summarise(g, y);
      exists k :: 0 <= k < |g| && g[k].date == s.minDate && g[k].flow == s.min &&
        forall j :: 0 <= j < k ==> g[j].flow > s.min
  {
    var f := GroupFlows(g);
    var kmin := FirstIndexOf(f, Min(f));
    assert g[kmin].flow == Min(f);
    assert forall j :: 0 <= j < kmin ==> g[j].flow > Min(f);
  }

  /** The annual table has one row per year present in the record, in
      ascending order, and each row summarises exactly that year's days. */
  lemma AnnualSummariesSound(obs: seq<Observation>, rule: YearRule)
    ensures var r := AnnualSummaries(obs, rule);
      (forall i, j :: 0 <= i < j < |r| ==> r[i].year < r[j].year) &&
      (forall o :: o in obs ==> exists i :: 0 <= i < |r| && r[i].year == YearOf(rule, o.date)) &&
      (forall i :: 0 <= i < |r| ==>
        |Group(obs, rule, r[i].year)| > 0 && r[i] == Summarise(Group(obs, rule, r[i].year), r[i].year))
  {
    var ys := Years(obs, rule);
    var r := AnnualSummaries(obs, rule);
    forall o | o in obs
      ensures exists i :: 0 <= i < |r| && r[i].year == YearOf(rule, o.date)
    {
      var k :| 0 <= k < |obs| && obs[k] == o;
      assert YearLabels(obs, rule)[k] == YearOf(rule, o.date);
      assert YearOf(rule, o.date) in YearLabels(obs, rule);
      assert YearOf(rule, o.date) in ys;
      var i :| 0 <= i < |ys| && ys[i] == YearOf(rule, o.date);
      assert r[i].year == ys[i];
    }
  }

  /** Read against the whole record, a year's `idxmax` is the date of the
      first day of that year, in record order, with the year's largest
      discharge, and its `idxmin` that of the first day with the smallest. */
  lemma AnnualExtremesFirstInRecord(obs: seq<Observation>, rule: YearRule, y: int)
    requires y in Years(obs, rule)
    ensures |Group(obs, rule, y)| > 0
    ensures var s := Summarise(Group(obs, rule, y), y);
      exists i :: 0 <= i < |obs| && YearOf(rule, obs[i].date) == y &&
        obs[i].date == s.maxDate && obs[i].flow == s.max &&
        forall j :: 0 <= j < i && YearOf(rule, obs[j].date) == y ==> obs[j].flow < s.max
    ensures var s := Summarise(Group(obs, rule, y), y);
      exists i :: 0 <= i < |obs| && YearOf(rule, obs[i].date) == y &&
        obs[i].date == s.minDate && obs[i].flow == s.min &&
        forall j :: 0 <= j < i && YearOf(rule, obs[j].date) == y ==> obs[j].flow > s.min
  {
    GroupOfYearNonEmpty(obs, rule, y);
    AnnualMaxFirstInRecord(obs, rule, y);
    AnnualMinFirstInRecord(obs, rule, y);
  }

  /** The group's k-th day sits in the record at a position before which
      every day of year y is one of the group's first k days. */
  lemma GroupIndexInRecord(obs: seq<Observation>, rule: YearRule, y: int, k: nat)
    requires k < |Group(obs, rule, y)|
    ensures exists i :: 0 <= i < |obs| && IsGroupDayAt(obs, rule, y, k, i)
  {
    SelectInRecordOrder(obs, InYear(rule, y));
    var i := Positions(obs, InYear(rule, y))[k];
    forall j | 0 <= j < i && YearOf(rule, obs[j].date) == y
      ensures exists l :: 0 <= l < k && Group(obs, rule, y)[l] == obs[j]
    {
      EarlierInGroup(obs, rule, y, k, j);
    }
    assert IsGroupDayAt(obs, rule, y, k, i);
  }

  /** A day of year y before the group's k-th day in the record is one of
      the group's first k days. */
  lemma EarlierInGroup(obs: seq<Observation>, rule: YearRule, y: int, k: nat, j: nat)
    requires k < |Positions(obs, InYear(rule, y))| && k < |Group(obs, rule, y)|
    requires j < Positions(obs, InYear(rule, y))[k] && YearOf(rule, obs[j].date) == y
    ensures exists l :: 0 <= l < k && Group(obs, rule, y)[l] == obs[j]
  {
    var p := Positions(obs, InYear(rule, y));
    EarlierPosition(obs, InYear(rule, y), k, j);
    var l :| 0 <= l < k && p[l] == j;
    SelectInRecordOrder(obs, InYear(rule, y));
    assert Group(obs, rule, y)[l] == obs[j];
  }

  /** A kept day before the k-th kept position is kept at an earlier one. */
  lemma EarlierPosition(obs: seq<Observation>, s: Selection, k: nat, j: nat)
    requires k < |Positions(obs, s)|
    requires j < Positions(obs, s)[k] && Selects(s, obs[j])
    ensures exists l :: 0 <= l < k && Positions(obs, s)[l] == j
  {
    var p := Positions(obs, s);
    var l :| 0 <= l < |p| && p[l] == j;
  }

  /** The record's i-th day is the group's k-th: it is of year y, and every
      earlier day of year y is one of the group's first k days. */
  predicate IsGroupDayAt(obs: seq<Observation>, rule: YearRule, y: int, k: nat, i: nat)
    requires k < |Group(obs, rule, y)| && i < |obs|
  {
    obs[i] == Group(obs, rule, y)[k] && YearOf(rule, obs[i].date) == y &&
    forall j :: 0 <= j < i && YearOf(rule, obs[j].date) == y ==>
      exists l :: 0 <= l < k && Group(obs, rule, y)[l] == obs[j]
  }

  lemma AnnualMaxFirstInRecord(obs: seq<Observation>, rule: YearRule, y: int)
    requires |Group(obs, rule, y)| > 0
    ensures var s := Summarise(Group(obs, rule, y), y);
      exists i :: 0 <= i < |obs| && YearOf(rule, obs[i].date) == y &&
        obs[i].date == s.maxDate && obs[i].flow == s.max &&
        forall j :: 0 <= j < i && YearOf(rule, obs[j].date) == y ==> obs[j].flow < s.max
  {
    var g := Group(obs, rule, y);
    var s := Summarise(g, y);
    SummaryMaxDate(g, y);
    var k :| 0 <= k < |g| && g[k].date == s.maxDate && g[k].flow == s.max &&
      forall j :: 0 <= j < k ==> g[j].flow < s.max;
    GroupIndexInRecord(obs, rule, y, k);
  }

  lemma AnnualMinFirstInRecord(obs: seq<Observation>, rule: YearRule, y: int)
    requires |Group(obs, rule, y)| > 0
    ensures var s := Summarise(Group(obs, rule, y), y);
      exists i :: 0 <= i < |obs| && YearOf(rule, obs[i].date) == y &&
        obs[i].date == s.minDate && obs[i].flow == s.min &&
        forall j :: 0 <= j < i && YearOf(rule, obs[j].date) == y ==> obs[j].flow > s.min
  {
    var g := Group(obs, rule, y);
    var s := Summarise(g, y);
    SummaryMinDate(g, y);
    var k :| 0 <= k < |g| && g[k].date == s.minDate && g[k].flow == s.min &&
      forall j :: 0 <= j < k ==> g[j].flow > s.min;
    GroupIndexInRecord(obs, rule, y, k);
  }

  // ---------------------------------------------------------------------
  // Reordering the monthly means into the hydrological year

  /** The twelve months starting at month `start`:
      `reindex([10, 11, 12, 1, ..., 9])` for start 10,
      `reindex([3, 4, ..., 12, 1, 2])` for start 3. */
  function MonthOrder(start: int): (ms: seq<int>)
    requires 1 <= start <= 12
    ensures |ms| == 12
  {
    seq(12, i => (start - 1 + i) % 12 + 1)
  }

  /** The reordering lists each month of the year exactly once. */
  lemma MonthOrderPermutation(start: int)
    requires 1 <= start <= 12
    ensures forall i :: 0 <= i < 12 ==> 1 <= MonthOrder(start)[i] <= 12
    ensures forall i, j :: 0 <= i < j < 12 ==> MonthOrder(start)[i] != MonthOrder(start)[j]
    ensures forall m :: 1 <= m <= 12 ==> m in MonthOrder(start)
    ensures MonthOrder(start)[0] == start
  {
    var ms := MonthOrder(start);
    forall i | 0 <= i < 12
      ensures ms[i] == if start + i <= 12 then start + i else start + i - 12
    {
    }
    forall m | 1 <= m <= 12
      ensures m in ms
    {
      var i := if m >= start then m - start else m - start + 12;
      assert ms[i] == m;
    }
  }

  /** The two reorderings used: October to September, and March to
      February. */
  lemma MonthOrderExamples()
    ensures MonthOrder(10) == [10, 11, 12, 1, 2, 3, 4, 5, 6, 7, 8, 9]
    ensures MonthOrder(3) == [3, 4, 5, 6, 7, 8, 9, 10, 11, 12, 1, 2]
  {
  }

  /** The discharges of the days of calendar month m, pooled over all
      years, in record order. */
  function MonthFlows(obs: seq<Observation>, m: int): (f: seq<real>)
    ensures forall v :: v in f ==> exists o :: o in obs && o.date.month == m && o.flow == v
    ensures forall o :: o in obs && o.date.month == m ==> o.flow in f
  {
    var g := Select(obs, InMonth(m));
    var f := GroupFlows(g);
    assert forall o :: o in g ==> o.flow in f by {
      forall o | o in g
        ensures o.flow in f
      {
        var k :| 0 <= k < |g| && g[k] == o;
        assert f[k] == o.flow;
      }
    }
    assert forall v :: v in f ==> exists o :: o in g && o.flow == v by {
      forall v | v in f
        ensures exists o :: o in g && o.flow == v
      {
        var k :| 0 <= k < |f| && f[k] == v;
        assert g[k] in g;
      }
    }
    f
  }

  /** A month has discharges exactly when the record holds a day of that
      month. */
  lemma MonthFlowsNonEmpty(obs: seq<Observation>, m: int)
    ensures |MonthFlows(obs, m)| > 0 <==> exists o :: o in obs && o.date.month == m
  {
    var f := MonthFlows(obs, m);
    if exists o :: o in obs && o.date.month == m {
      var o :| o in obs && o.date.month == m;
      assert o.flow in f;
    }
    if |f| > 0 {
      assert f[0] in f;
    }
  }

  /** `groupby('Mes').mean()` reindexed by `MonthOrder(start)`: the mean
      of each month in hydrological-year order; None for a month without
      data (pandas shows NaN there). */
  function ReorderedMonthlyMeans(obs: seq<Observation>, start: int): (r: seq<Option<real>>)
    requires 1 <= start <= 12
    ensures |r| == 12
  {
    seq(12, i requires 0 <= i < 12 =>
      var f := MonthFlows(obs, MonthOrder(start)[i]);
      if |f| == 0 then None else Some(Mean(f)))
  }

  /** Each entry of the reordered table is the mean of the month in that
      position, missing exactly when the record has no day of that month,
      and lies between the smallest and largest discharge of
      that month. */
  lemma ReorderedMonthlyMeansSound(obs: seq<Observation>, start: int, i: int)
    requires 1 <= start <= 12 && 0 <= i < 12
    ensures var m := MonthOrder(start)[i];
      var f := MonthFlows(obs, m);
      1 <= m <= 12 &&
      (ReorderedMonthlyMeans(obs, start)[i].Some? <==> |f| > 0) &&
      (ReorderedMonthlyMeans(obs, start)[i].Some? <==> exists o :: o in obs && o.date.month == m) &&
      (|f| > 0 ==>
        ReorderedMonthlyMeans(obs, start)[i].value == Mean(f) &&
        Min(f) <= ReorderedMonthlyMeans(obs, start)[i].value <= Max(f))
  {
    MonthOrderPermutation(start);
    MonthFlowsNonEmpty(obs, MonthOrder(start)[i]);
    var f := MonthFlows(obs, MonthOrder(start)[i]);
    if |f| > 0 {
      MeanBetweenMinMax(f);
    }
  }
}
