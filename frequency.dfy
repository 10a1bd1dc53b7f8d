/** Frequency tables of a sample and its mode.

    Discrete data (days of rain per January, sums of two dice) are counted
    per distinct value, in ascending key order; continuous data (annual
    rainfall, weights of students) are counted per bin of a histogram whose
    bins are half-open [e_i, e_{i+1}) except the last one, which is closed.
    Relative frequencies divide by the number counted and cumulative
    frequencies are running sums in key order. */
module Frequency {
  import opened Sums

  /** One line of an absolute frequency table. */
  datatype Row = Row(key: int, count: nat)

  /** Number of occurrences of k in xs. */
  function Count(xs: seq<int>, k: int): nat
  {
    multiset(xs)[k]
  }

  /** Number of elements of xs that are one of the keys ks. */
  function CountIn(xs: seq<int>, ks: seq<int>): nat
  {
    if |xs| == 0 then 0 else (if xs[0] in ks then 1 else 0) + CountIn(xs[1..], ks)
  }

  function SumNat(cs: seq<nat>): nat
  {
    if |cs| == 0 then 0 else cs[0] + SumNat(cs[1..])
  }

  predicate Ascending(ks: seq<int>)
  {
    forall i, j :: 0 <= i < j < |ks| ==> ks[i] < ks[j]
  }

  /** Adds x to an ascending list of distinct keys. */
  function Insert(ks: seq<int>, x: int): (r: seq<int>)
    requires Ascending(ks)
    ensures Ascending(r)
    ensures forall y :: y in r <==> y in ks || y == x
  {
    if |ks| == 0 then [x]
    else if x < ks[0] then [x] + ks
    else if x == ks[0] then ks
    else
      var rest := Insert(ks[1..], x);
      assert forall y :: y in ks[1..] ==> ks[0] < y;
      assert forall i :: 0 <= i < |rest| ==> ks[0] < rest[i] by {
        assert forall i :: 0 <= i < |rest| ==> rest[i] in rest;
      }
      [ks[0]] + rest
  }

  /** The distinct values of a sample, ascending: the index of the table
      that `value_counts` builds, put in ascending order. */
  function Keys(xs: seq<int>): (ks: seq<int>)
    ensures Ascending(ks)
    ensures forall y :: y in ks <==> y in xs
  {
    if |xs| == 0 then []
    else
      var ks := Insert(Keys(xs[1..]), xs[0]);
      assert forall y :: y in xs <==> y == xs[0] || y in xs[1..];
      ks
  }

  function CountsOf(xs: seq<int>, ks: seq<int>): (cs: seq<nat>)
  {
    seq(|ks|, i requires 0 <= i < |ks| => Count(xs, ks[i]))
  }

  /** Absolute frequency table of discrete data. */
  function AbsoluteTable(xs: seq<int>): seq<Row>
  {
    var ks := Keys(xs);
    seq(|ks|, i requires 0 <= i < |ks| => Row(ks[i], Count(xs, ks[i])))
  }

  function CountColumn(t: seq<Row>): (cs: seq<nat>)
    ensures |cs| == |t| && forall i :: 0 <= i < |t| ==> cs[i] == t[i].count
  {
    seq(|t|, i requires 0 <= i < |t| => t[i].count)
  }

  /** Counts divided by a positive total. */
  function Proportions(cs: seq<nat>, total: nat): (p: seq<real>)
    requires total > 0
    ensures |p| == |cs|
    ensures forall i :: 0 <= i < |cs| ==> p[i] == cs[i] as real / total as real
  {
    seq(|cs|, i requires 0 <= i < |cs| => cs[i] as real / total as real)
  }

  /** Relative frequency table (`value_counts(normalize=True)`): each count
      divided by the sample size. */
  function RelativeTable(xs: seq<int>): seq<real>
  {
    if |xs| == 0 then [] else Proportions(CountColumn(AbsoluteTable(xs)), |xs|)
  }

  /** Running sums in key order (`cumsum`). */
  function CumSum(s: seq<real>): (c: seq<real>)
    ensures |c| == |s| && forall i :: 0 <= i < |s| ==> c[i] == Sum(s[..i + 1])
  {
    seq(|s|, i requires 0 <= i < |s| => Sum(s[..i + 1]))
  }

  /** Cumulative relative frequency table. */
  function CumulativeTable(xs: seq<int>): seq<real>
  {
    CumSum(RelativeTable(xs))
  }

  // ---------------------------------------------------------------------
  // Counting lemmas

  /** Splitting the keys: counting the members of [k] + rest counts k and
      then the members of rest. */
  lemma {:induction false} CountInCons(xs: seq<int>, k: int, rest: seq<int>)
    requires k !in rest
    ensures CountIn(xs, [k] + rest) == Count(xs, k) + CountIn(xs, rest)
  {
    if |xs| > 0 {
      assert xs == [xs[0]] + xs[1..];
      CountInCons(xs[1..], k, rest);
    }
  }

  /** Summing the counts of distinct keys counts the elements that are one of the keys. */
  lemma {:induction false} SumCountsOfDistinctKeys(xs: seq<int>, ks: seq<int>)
    requires Ascending(ks)
    ensures SumNat(CountsOf(xs, ks)) == CountIn(xs, ks)
  {
    if |ks| == 0 {
      if |xs| > 0 {
        SumCountsOfDistinctKeys(xs[1..], ks);
      }
    } else {
      assert ks == [ks[0]] + ks[1..];
      assert ks[0] !in ks[1..];
      assert CountsOf(xs, ks)[1..] == CountsOf(xs, ks[1..]);
      SumCountsOfDistinctKeys(xs, ks[1..]);
      CountInCons(xs, ks[0], ks[1..]);
    }
  }

  /** When every element is one of the keys, all of them are counted. */
  lemma {:induction false} CountInAll(xs: seq<int>, ks: seq<int>)
    requires forall i :: 0 <= i < |xs| ==> xs[i] in ks
    ensures CountIn(xs, ks) == |xs|
  {
    if |xs| > 0 {
      assert forall i :: 0 <= i < |xs| - 1 ==> xs[1..][i] == xs[i + 1];
      CountInAll(xs[1..], ks);
    }
  }

  // ---------------------------------------------------------------------
  // Properties of the discrete tables

  /** The table lists every value of the sample once, in ascending order,
      each with a positive count, and its counts add up to the sample size. */
  lemma AbsoluteTableSound(xs: seq<int>)
    ensures Ascending(CountColumnKeys(AbsoluteTable(xs)))
    ensures forall x :: x in xs <==> x in CountColumnKeys(AbsoluteTable(xs))
    ensures forall r :: r in AbsoluteTable(xs) ==> r.count == Count(xs, r.key) && r.count > 0
    ensures SumNat(CountColumn(AbsoluteTable(xs))) == |xs|
  {
    var ks := Keys(xs);
    var t := AbsoluteTable(xs);
    assert CountColumnKeys(t) == ks;
    assert CountColumn(t) == CountsOf(xs, ks);
    SumCountsOfDistinctKeys(xs, ks);
    CountInAll(xs, ks);
    forall r | r in t
      ensures r.count == Count(xs, r.key) && r.count > 0
    {
      assert r.key in CountColumnKeys(t);
      assert r.key in xs;
    }
  }

  function CountColumnKeys(t: seq<Row>): (ks: seq<int>)
    ensures |ks| == |t| && forall i :: 0 <= i < |t| ==> ks[i] == t[i].key
  {
    seq(|t|, i requires 0 <= i < |t| => t[i].key)
  }

  /** Dividing every term of a sum by the same positive total divides the sum. */
  lemma {:induction false} SumProportions(cs: seq<nat>, total: nat)
    requires total > 0
    ensures Sum(Proportions(cs, total)) == SumNat(cs) as real / total as real
  {
    var p := Proportions(cs, total);
    var n := total as real;
    if |cs| > 0 {
      assert p[1..] == Proportions(cs[1..], total);
      SumProportions(cs[1..], total);
      AddQuotients(cs[0] as real, SumNat(cs[1..]) as real, n);
    }
  }

  lemma AddQuotients(a: real, b: real, n: real)
    requires n > 0.0
    ensures a / n + b / n == (a + b) / n
  {
  }

  /** Relative frequencies are the counts over N and add up to exactly 1. */
  lemma RelativeTableSound(xs: seq<int>)
    requires |xs| > 0
    ensures |RelativeTable(xs)| == |AbsoluteTable(xs)|
    ensures forall i :: 0 <= i < |RelativeTable(xs)| ==>
      RelativeTable(xs)[i] == AbsoluteTable(xs)[i].count as real / |xs| as real
    ensures Sum(RelativeTable(xs)) == 1.0
  {
    AbsoluteTableSound(xs);
    var cs := CountColumn(AbsoluteTable(xs));
    SumProportions(cs, |xs|);
    assert SumNat(cs) as real == |xs| as real;
    WholeShare(|xs| as real);
  }

  lemma ProportionsNonnegative(cs: seq<nat>, total: nat)
    requires total > 0
    ensures forall i :: 0 <= i < |cs| ==> Proportions(cs, total)[i] >= 0.0
  {
    forall i | 0 <= i < |cs|
      ensures Proportions(cs, total)[i] >= 0.0
    {
      ShareNonnegative(cs[i] as real, total as real);
    }
  }

  lemma ShareNonnegative(c: real, n: real)
    requires c >= 0.0 && n > 0.0
    ensures c / n >= 0.0
  {
  }

  lemma WholeShare(n: real)
    requires n > 0.0
    ensures n / n == 1.0
  {
  }

  lemma {:induction false} SumNonnegative(s: seq<real>)
    requires forall i :: 0 <= i < |s| ==> s[i] >= 0.0
    ensures Sum(s) >= 0.0
  {
    if |s| > 0 {
      assert forall i :: 0 <= i < |s| - 1 ==> s[1..][i] == s[i + 1];
      SumNonnegative(s[1..]);
    }
  }

  lemma CumSumStep(s: seq<real>, i: nat, j: nat)
    requires i <= j < |s|
    requires forall k :: 0 <= k < |s| ==> s[k] >= 0.0
    ensures Sum(s[..i + 1]) <= Sum(s[..j + 1])
  {
    var a, b := s[..i + 1], s[i + 1..j + 1];
    assert s[..j + 1] == a + b;
    SumAppend(a, b);
    assert forall k :: 0 <= k < |b| ==> b[k] == s[i + 1 + k];
    SumNonnegative(b);
  }

  /** Running sums of nonnegative terms never decrease, and the last one is the total. */
  lemma CumSumSound(s: seq<real>)
    requires forall i :: 0 <= i < |s| ==> s[i] >= 0.0
    ensures forall i, j :: 0 <= i <= j < |s| ==> CumSum(s)[i] <= CumSum(s)[j]
    ensures |s| > 0 ==> CumSum(s)[|s| - 1] == Sum(s)
  {
    var c := CumSum(s);
    forall i, j | 0 <= i <= j < |s|
      ensures c[i] <= c[j]
    {
      CumSumStep(s, i, j);
    }
    if |s| > 0 {
      assert s[..|s|] == s;
    }
  }

  /** The cumulative relative frequency never decreases and ends at exactly 1. */
  lemma CumulativeTableSound(xs: seq<int>)
    requires |xs| > 0
    ensures |CumulativeTable(xs)| > 0
    ensures forall i, j :: 0 <= i <= j < |CumulativeTable(xs)| ==>
      CumulativeTable(xs)[i] <= CumulativeTable(xs)[j]
    ensures CumulativeTable(xs)[|CumulativeTable(xs)| - 1] == 1.0
  {
    var r := RelativeTable(xs);
    RelativeTableSound(xs);
    assert xs[0] in Keys(xs);
    ProportionsNonnegative(CountColumn(AbsoluteTable(xs)), |xs|);
    CumSumSound(r);
  }

  // ---------------------------------------------------------------------
  // Binned tables (histogram counts)

  predicate Increasing(e: seq<real>)
  {
    forall i, j :: 0 <= i < j < |e| ==> e[i] < e[j]
  }

  /** k + 1 equal-width edges start, start + width, ..., start + k * width
      (`range(start, stop, width)` passed as `bins`). */
  function Edges(start: real, width: real, k: nat): (e: seq<real>)
    ensures |e| == k + 1
    ensures forall i :: 0 <= i < k + 1 ==> e[i] == Edge(start, width, i)
  {
    seq(k + 1, i requires 0 <= i < k + 1 => Edge(start, width, i))
  }

  /** Edge i of an equal-width binning: start + i * width. */
  function Edge(start: real, width: real, i: nat): real
  {
    start + i as real * width
  }

  /** Bin i of a histogram with edges e is [e_i, e_{i+1}); the last bin also
      holds its right edge. */
  predicate InBin(x: real, edges: seq<real>, i: int)
    requires 0 <= i < |edges| - 1
  {
    edges[i] <= x < edges[i + 1] || (i == |edges| - 2 && x == edges[i + 1])
  }

  /** First bin, from bin i on, that holds x, or -1. */
  function BinFrom(x: real, edges: seq<real>, i: nat): (b: int)
    requires i <= |edges| - 1
    decreases |edges| - i
    ensures b == -1 || (i <= b < |edges| - 1 && InBin(x, edges, b))
    ensures b == -1 ==> forall j :: i <= j < |edges| - 1 ==> !InBin(x, edges, j)
  {
    if i == |edges| - 1 then -1
    else if InBin(x, edges, i) then i
    else BinFrom(x, edges, i + 1)
  }

  /** Index of the bin holding x, or -1 when x lies outside [e_0, e_k]. */
  function BinIndex(x: real, edges: seq<real>): int
    requires |edges| >= 1
  {
    BinFrom(x, edges, 0)
  }

  /** Bins do not overlap: a value lies in at most one of them. */
  lemma BinUnique(x: real, edges: seq<real>, i: int, j: int)
    requires Increasing(edges)
    requires 0 <= i < |edges| - 1 && 0 <= j < |edges| - 1
    requires InBin(x, edges, i) && InBin(x, edges, j)
    ensures i == j
  {
  }

  lemma {:induction false} BinFromFinds(x: real, edges: seq<real>, i: nat)
    requires Increasing(edges)
    requires i < |edges| - 1
    requires edges[i] <= x <= edges[|edges| - 1]
    ensures BinFrom(x, edges, i) >= 0
    decreases |edges| - i
  {
    if !InBin(x, edges, i) {
      assert i + 1 < |edges| - 1;
      BinFromFinds(x, edges, i + 1);
    }
  }

  /** A value lands in a bin exactly when it lies in [e_0, e_k], and then in
      exactly one bin: the one BinIndex names. */
  lemma BinIndexSound(x: real, edges: seq<real>)
    requires |edges| >= 2 && Increasing(edges)
    ensures BinIndex(x, edges) >= 0 <==> edges[0] <= x <= edges[|edges| - 1]
    ensures BinIndex(x, edges) >= 0 ==>
      forall j :: 0 <= j < |edges| - 1 ==> (InBin(x, edges, j) <==> j == BinIndex(x, edges))
  {
    var b := BinIndex(x, edges);
    if edges[0] <= x <= edges[|edges| - 1] {
      BinFromFinds(x, edges, 0);
    }
    if b >= 0 {
      assert edges[0] <= edges[b] && edges[b + 1] <= edges[|edges| - 1];
      forall j | 0 <= j < |edges| - 1 && InBin(x, edges, j)
        ensures j == b
      {
        BinUnique(x, edges, j, b);
      }
    }
  }

  /** Equal-width edges with a positive width increase strictly. */
  lemma EdgesIncreasing(start: real, width: real, k: nat)
    requires width > 0.0
    ensures |Edges(start, width, k)| == k + 1
    ensures Increasing(Edges(start, width, k))
    ensures forall i :: 0 <= i < k ==> Edges(start, width, k)[i + 1] == Edges(start, width, k)[i] + width
  {
    var e := Edges(start, width, k);
    forall i, j | 0 <= i < j < |e|
      ensures e[i] < e[j]
    {
      EdgeStep(start, width, i, j);
    }
    forall i | 0 <= i < k
      ensures e[i + 1] == e[i] + width
    {
      EdgeNext(start, width, i);
    }
  }

  lemma EdgeStep(start: real, width: real, i: nat, j: nat)
    requires i < j && width > 0.0
    ensures Edge(start, width, i) < Edge(start, width, j)
  {
    var d := (j - i) as real;
    assert d * width > 0.0;
    assert j as real * width == i as real * width + d * width;
  }

  lemma EdgeNext(start: real, width: real, i: nat)
    ensures Edge(start, width, i + 1) == Edge(start, width, i) + width
  {
    assert (i + 1) as real * width == i as real * width + width;
  }

  /** The bin label of every observation (-1 outside the range). */
  function BinLabels(xs: seq<real>, edges: seq<real>): seq<int>
    requires |edges| >= 1
  {
    seq(|xs|, j requires 0 <= j < |xs| => BinIndex(xs[j], edges))
  }

  /** 0, 1, ..., k - 1. */
  function BinNumbers(k: nat): seq<int>
  {
    seq(k, i requires 0 <= i < k => i)
  }

  /** Absolute counts per bin, as `plt.hist(...)[0]` returns them. */
  function Histogram(xs: seq<real>, edges: seq<real>): (h: seq<nat>)
    requires |edges| >= 2
  {
    CountsOf(BinLabels(xs, edges), BinNumbers(|edges| - 1))
  }

  /** Number of observations in [lo, hi]. */
  function CountInRange(xs: seq<real>, lo: real, hi: real): nat
  {
    if |xs| == 0 then 0 else (if lo <= xs[0] <= hi then 1 else 0) + CountInRange(xs[1..], lo, hi)
  }

  lemma {:induction false} LabelsInBinNumbers(xs: seq<real>, edges: seq<real>)
    requires |edges| >= 2 && Increasing(edges)
    ensures CountIn(BinLabels(xs, edges), BinNumbers(|edges| - 1))
      == CountInRange(xs, edges[0], edges[|edges| - 1])
  {
    if |xs| > 0 {
      var ls := BinLabels(xs, edges);
      assert ls[1..] == BinLabels(xs[1..], edges);
      LabelsInBinNumbers(xs[1..], edges);
      BinIndexSound(xs[0], edges);
      var ks := BinNumbers(|edges| - 1);
      if ls[0] >= 0 {
        assert ks[ls[0]] == ls[0];
      }
      assert ls[0] in ks <==> ls[0] >= 0;
    }
  }

  /** Each bin counts the observations it holds, and the counts add up to the
      number of observations inside [e_0, e_k]. */
  lemma HistogramSound(xs: seq<real>, edges: seq<real>)
    requires |edges| >= 2 && Increasing(edges)
    ensures |Histogram(xs, edges)| == |edges| - 1
    ensures forall i :: 0 <= i < |edges| - 1 ==>
      Histogram(xs, edges)[i] == Count(BinLabels(xs, edges), i)
    ensures SumNat(Histogram(xs, edges)) == CountInRange(xs, edges[0], edges[|edges| - 1])
  {
    var ks := BinNumbers(|edges| - 1);
    assert Ascending(ks);
    SumCountsOfDistinctKeys(BinLabels(xs, edges), ks);
    LabelsInBinNumbers(xs, edges);
  }

  /** Relative counts per bin: each count over the total counted
      (`hist[0] / hist[0].sum()`); None when no observation lies in range,
      where that division would be 0/0. */
  function BinnedRelative(counts: seq<nat>): Option<seq<real>>
  {
    if SumNat(counts) == 0 then None else Some(Proportions(counts, SumNat(counts)))
  }

  /** The relative bin frequencies add up to 1 and their running sum never
      decreases and ends at exactly 1; they exist exactly when something
      was counted. */
  lemma BinnedRelativeSound(counts: seq<nat>)
    ensures BinnedRelative(counts).Some? <==> SumNat(counts) > 0
    ensures BinnedRelative(counts).Some? ==>
      |BinnedRelative(counts).value| == |counts| && Distribution(BinnedRelative(counts).value)
  {
    if SumNat(counts) > 0 {
      var r := Proportions(counts, SumNat(counts));
      SumProportions(counts, SumNat(counts));
      WholeShare(SumNat(counts) as real);
      ProportionsNonnegative(counts, SumNat(counts));
      CumSumSound(r);
    }
  }

  /** Nonnegative proportions that add up to 1, whose running sum never
      decreases and ends at exactly 1. */
  predicate Distribution(r: seq<real>)
  {
    |r| > 0 &&
    (forall i :: 0 <= i < |r| ==> r[i] >= 0.0) &&
    Sum(r) == 1.0 &&
    CumSum(r)[|r| - 1] == 1.0 &&
    forall i, j :: 0 <= i <= j < |r| ==> CumSum(r)[i] <= CumSum(r)[j]
  }

  // ---------------------------------------------------------------------
  // Mode

  /** Position of the first largest count (`idxmax`). */
  function FirstMaxIndex(cs: seq<nat>): (m: nat)
    requires |cs| > 0
    ensures m < |cs|
    ensures forall i :: 0 <= i < |cs| ==> cs[i] <= cs[m]
    ensures forall i :: 0 <= i < m ==> cs[i] < cs[m]
  {
    if |cs| == 1 then 0
    else
      var r := 1 + FirstMaxIndex(cs[1..]);
      assert forall i :: 1 <= i < |cs| ==> cs[i] == cs[1..][i - 1];
      if cs[0] >= cs[r] then 0 else r
  }

  /** The mode of a frequency table: the first key whose count is largest. */
  function Mode(t: seq<Row>): (r: Row)
    requires |t| > 0
  {
    t[FirstMaxIndex(CountColumn(t))]
  }

  /** A value of the sample counted more often than every other value is
      the mode of its table. */
  lemma UniqueMode(xs: seq<int>, k: int)
    requires k in xs
    requires forall y :: y in xs && y != k ==> Count(xs, y) < Count(xs, k)
    ensures |AbsoluteTable(xs)| > 0
    ensures Mode(AbsoluteTable(xs)) == Row(k, Count(xs, k))
  {
    SampleModeSound(xs);
    AbsoluteTableSound(xs);
    ModeSound(AbsoluteTable(xs));
  }

  /** The mode row belongs to the table, no key is counted more often, and
      every key before it is counted strictly less often. */
  lemma ModeSound(t: seq<Row>)
    requires |t| > 0
    ensures Mode(t) in t
    ensures forall r :: r in t ==> r.count <= Mode(t).count
    ensures forall i :: 0 <= i < |t| && t[i].count == Mode(t).count ==>
      t[FirstMaxIndex(CountColumn(t))] == Mode(t) && FirstMaxIndex(CountColumn(t)) <= i
  {
    var cs := CountColumn(t);
    var m := FirstMaxIndex(cs);
    forall r | r in t
      ensures r.count <= Mode(t).count
    {
      var i :| 0 <= i < |t| && t[i] == r;
      assert cs[i] == r.count;
    }
    forall i | 0 <= i < |t| && t[i].count == Mode(t).count
      ensures m <= i
    {
      assert cs[i] == cs[m];
    }
  }

  /** On the table of a sample, the mode is the smallest of the most
      frequent values. */
  lemma SampleModeSound(xs: seq<int>)
    requires |xs| > 0
    ensures |AbsoluteTable(xs)| > 0
    ensures Mode(AbsoluteTable(xs)).key in xs
    ensures forall y :: Count(xs, y) <= Count(xs, Mode(AbsoluteTable(xs)).key)
    ensures forall y :: Count(xs, y) == Count(xs, Mode(AbsoluteTable(xs)).key) ==>
      Mode(AbsoluteTable(xs)).key <= y
  {
    var t := AbsoluteTable(xs);
    var ks := Keys(xs);
    assert xs[0] in ks;
    AbsoluteTableSound(xs);
    ModeSound(t);
    var m := Mode(t);
    assert m.key in CountColumnKeys(t);
    forall y
      ensures Count(xs, y) <= Count(xs, m.key)
      ensures Count(xs, y) == Count(xs, m.key) ==> m.key <= y
    {
      if y in xs {
        assert y in CountColumnKeys(t);
        var i :| 0 <= i < |t| && t[i].key == y;
        assert t[i] in t;
        if Count(xs, y) == Count(xs, m.key) {
          var p := FirstMaxIndex(CountColumn(t));
          assert p <= i;
          assert t[p].key == ks[p] && t[i].key == ks[i];
        }
      }
    }
  }

  /** Modal class of a binned table: the interval [e_m, e_{m+1}) of the
      first bin with the largest count. */
  function ModalClass(counts: seq<nat>, edges: seq<real>): (interval: (real, real))
    requires |counts| > 0 && |edges| == |counts| + 1
  {
    var m := FirstMaxIndex(counts);
    (edges[m], edges[m + 1])
  }

  /** With equal-width edges the modal class is the bin [m, m + width) of
      the first maximal count: no bin holds more observations than it and
      every earlier bin holds fewer. */
  lemma ModalClassEqualWidth(counts: seq<nat>, start: real, width: real)
    requires |counts| > 0 && width > 0.0
    ensures ModalClass(counts, Edges(start, width, |counts|)).1
      == ModalClass(counts, Edges(start, width, |counts|)).0 + width
    ensures exists m ::
      (0 <= m < |counts| &&
       ModalClass(counts, Edges(start, width, |counts|)).0 == start + m as real * width &&
       (forall i :: 0 <= i < |counts| ==> counts[i] <= counts[m]) &&
       (forall i :: 0 <= i < m ==> counts[i] < counts[m]))
  {
    var e := Edges(start, width, |counts|);
    EdgesIncreasing(start, width, |counts|);
    var m := FirstMaxIndex(counts);
    assert e[m] == Edge(start, width, m);
    assert e[m + 1] == e[m] + width;
    assert ModalClass(counts, e) == (e[m], e[m + 1]);
  }

  // ---------------------------------------------------------------------
  // Worked examples of the notebook

  /** Days of rain in January over 26 years. */
  const DaysOfRain: seq<int> :=
    [14, 12, 13, 11, 12, 13, 16, 14, 14, 15, 17, 14, 11, 13, 14, 15, 13, 12, 14, 13, 14, 13, 15, 16, 12, 12]

  /** 14 days of rain occur in 7 of the 26 years, a little over a quarter
      of them. */
  lemma DaysOfRainExample()
    ensures |DaysOfRain| == 26
    ensures Count(DaysOfRain, 14) == 7
    ensures 0.2692 < Count(DaysOfRain, 14) as real / |DaysOfRain| as real < 0.2693
  {
    FourteenDays();
    QuarterShare(Count(DaysOfRain, 14) as real, |DaysOfRain| as real);
  }

  lemma FourteenDays()
    ensures multiset(DaysOfRain)[14] == 7
  {
  }

  /** Every other number of days occurs fewer than 7 times: 11 twice, 12
      five times, 13 six times, 15 three times, 16 twice and 17 once. */
  lemma OtherDaysCounts()
    ensures Count(DaysOfRain, 11) == 2 && Count(DaysOfRain, 12) == 5
    ensures Count(DaysOfRain, 13) == 6 && Count(DaysOfRain, 15) == 3
    ensures Count(DaysOfRain, 16) == 2 && Count(DaysOfRain, 17) == 1
  {
    DaysCount11();
    DaysCount12();
    DaysCount13();
    DaysCount15();
    DaysCount16();
    DaysCount17();
  }

  lemma DaysCount11()
    ensures multiset(DaysOfRain)[11] == 2
  {
  }

  lemma DaysCount12()
    ensures multiset(DaysOfRain)[12] == 5
  {
  }

  lemma DaysCount13()
    ensures multiset(DaysOfRain)[13] == 6
  {
  }

  lemma DaysCount15()
    ensures multiset(DaysOfRain)[15] == 3
  {
  }

  lemma DaysCount16()
    ensures multiset(DaysOfRain)[16] == 2
  {
  }

  lemma DaysCount17()
    ensures multiset(DaysOfRain)[17] == 1
  {
  }

  /** The mode of the days of rain is 14, seen in 7 years. */
  lemma DaysOfRainMode()
    ensures Mode(AbsoluteTable(DaysOfRain)) == Row(14, 7)
  {
    FourteenDays();
    OtherDaysCounts();
    DaysOfRainRange();
    ModeOfDays(DaysOfRain);
  }

  /** A sample of days between 11 and 17 with the rain-day counts has mode
      14. */
  lemma ModeOfDays(xs: seq<int>)
    requires forall i :: 0 <= i < |xs| ==> 11 <= xs[i] <= 17
    requires Count(xs, 11) == 2 && Count(xs, 12) == 5 && Count(xs, 13) == 6 && Count(xs, 14) == 7
    requires Count(xs, 15) == 3 && Count(xs, 16) == 2 && Count(xs, 17) == 1
    ensures Mode(AbsoluteTable(xs)) == Row(14, 7)
  {
    forall y | y in xs && y != 14
      ensures Count(xs, y) < Count(xs, 14)
    {
      var i :| 0 <= i < |xs| && xs[i] == y;
      if y <= 13 {
        assert y == 11 || y == 12 || y == 13;
      } else {
        assert y == 15 || y == 16 || y == 17;
      }
    }
    UniqueMode(xs, 14);
  }

  lemma QuarterShare(c: real, n: real)
    requires c == 7.0 && n == 26.0
    ensures 0.2692 < c / n < 0.2693
  {
  }

  /** When a sample holds every value from lo to hi and no other, its table
      has exactly the keys lo, lo + 1, ..., hi. */
  lemma KeysOfRange(xs: seq<int>, lo: int, hi: int)
    requires forall i :: 0 <= i < |xs| ==> lo <= xs[i] <= hi
    requires forall y :: lo <= y <= hi ==> y in xs
    ensures |Keys(xs)| == if lo <= hi then hi - lo + 1 else 0
    ensures forall i :: 0 <= i < |Keys(xs)| ==> Keys(xs)[i] == lo + i
  {
    var ks := Keys(xs);
    forall y
      ensures y in ks <==> lo <= y <= hi
    {
      if y in xs {
        var i :| 0 <= i < |xs| && xs[i] == y;
      }
    }
    AscendingRange(ks, lo, hi);
  }

  /** The days of rain range from 11 to 17 and every value in between
      occurs, so their table has the keys 11, 12, ..., 17. */
  lemma DaysOfRainRange()
    ensures forall i :: 0 <= i < |DaysOfRain| ==> 11 <= DaysOfRain[i] <= 17
    ensures forall y :: 11 <= y <= 17 ==> y in DaysOfRain
  {
    var xs := DaysOfRain;
    forall y | 11 <= y <= 17
      ensures y in xs
    {
      assert y in {xs[3], xs[1], xs[2], xs[0], xs[9], xs[6], xs[10]};
    }
  }

  lemma HeadIsMember(ks: seq<int>)
    ensures |ks| > 0 ==> ks[0] in ks
  {
  }

  /** An ascending list of distinct keys holding exactly lo..hi is [lo, ..., hi]. */
  lemma {:induction false} AscendingRange(ks: seq<int>, lo: int, hi: int)
    requires Ascending(ks)
    requires forall y :: y in ks <==> lo <= y <= hi
    ensures |ks| == if lo <= hi then hi - lo + 1 else 0
    ensures forall i :: 0 <= i < |ks| ==> ks[i] == lo + i
    decreases hi - lo
  {
    if lo > hi {
      HeadIsMember(ks);
    } else {
      assert lo in ks;
      assert ks[0] == lo by {
        assert ks[0] in ks;
      }
      var rest := ks[1..];
      forall y
        ensures y in rest <==> lo + 1 <= y <= hi
      {
        if y in rest {
          var i :| 0 <= i < |rest| && rest[i] == y;
          assert ks[0] < ks[i + 1];
          assert y in ks;
        }
        if lo + 1 <= y <= hi {
          assert y in ks;
          var i :| 0 <= i < |ks| && ks[i] == y;
          assert i != 0;
          assert rest[i - 1] == y;
        }
      }
      AscendingRange(rest, lo + 1, hi);
    }
  }

  /** Sums of two dice in 20 throws: sums 3..11 and how often each came up. */
  function DiceTable(): seq<Row>
  {
    var counts: seq<nat> := [1, 3, 1, 4, 5, 2, 3, 0, 1];
    seq(9, i requires 0 <= i < 9 => Row(3 + i, counts[i]))
  }

  /** The modal sum of the dice table is 7, seen 5 times. */
  lemma DiceModeExample()
    ensures Mode(DiceTable()) == Row(7, 5)
  {
    var t := DiceTable();
    var cs := CountColumn(t);
    assert cs == [1, 3, 1, 4, 5, 2, 3, 0, 1];
    FirstMaxIndexCharacterised(cs, 4);
    assert t[4] == Row(7, 5);
  }

  /** A position whose count is the largest and strictly exceeds every
      earlier count is the first largest count. */
  lemma FirstMaxIndexCharacterised(cs: seq<nat>, k: nat)
    requires k < |cs|
    requires forall i :: 0 <= i < |cs| ==> cs[i] <= cs[k]
    requires forall i :: 0 <= i < k ==> cs[i] < cs[k]
    ensures FirstMaxIndex(cs) == k
  {
    var m := FirstMaxIndex(cs);
    assert cs[m] == cs[k];
  }

  /** Annual rainfall (mm) over 26 years. */
  const AnnualRainfall: seq<real> :=
    [1421.0, 1234.0, 1326.0, 1187.0, 1281.0, 1311.0, 1600.0, 1489.0, 1492.0, 1522.0, 1709.0, 1490.0, 1101.0,
     1393.0, 1414.0, 1505.0, 1333.0, 1201.0, 1444.0, 1380.0, 1477.0, 1329.0, 1540.0, 1603.0, 1267.0, 1299.0]

  lemma {:induction false} CountInRangeAll(xs: seq<real>, lo: real, hi: real)
    requires forall i :: 0 <= i < |xs| ==> lo <= xs[i] <= hi
    ensures CountInRange(xs, lo, hi) == |xs|
  {
    if |xs| > 0 {
      assert forall i :: 0 <= i < |xs| - 1 ==> xs[1..][i] == xs[i + 1];
      CountInRangeAll(xs[1..], lo, hi);
    }
  }

  /** With the 100 mm bins from 1100 to 1800 every one of the 26 years is
      counted, so the relative bin frequencies divide by 26. */
  lemma RainfallHistogramExample()
    ensures Increasing(Edges(1100.0, 100.0, 7))
    ensures SumNat(Histogram(AnnualRainfall, Edges(1100.0, 100.0, 7))) == 26
  {
    var e := Edges(1100.0, 100.0, 7);
    EdgesIncreasing(1100.0, 100.0, 7);
    assert e[0] == 1100.0 && e[7] == 1800.0;
    RainfallInRange();
    CountInRangeAll(AnnualRainfall, 1100.0, 1800.0);
    HistogramSound(AnnualRainfall, e);
  }

  lemma RainfallInRange()
    ensures forall i :: 0 <= i < |AnnualRainfall| ==> 1100.0 <= AnnualRainfall[i] <= 1800.0
  {
  }
}
