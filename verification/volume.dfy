/** The shaping of an exchange's volume chart: conversion of each raw
    volume by the factor, a 7-point trailing mean in chronological order,
    and the final ordering by date, most recent first. */
module Volume {
  import opened Optional
  import opened Sorting
  import opened Text
  import opened Rates

  /** The number of points of the trailing mean; a point with fewer than
      `Window - 1` predecessors gets no mean (`rolling(7)` keeps its
      default minimum of 7 observations). */
  const Window: nat := 7

  /** One point of the volume chart: a millisecond timestamp and a volume
      in BTC. */
  datatype RawPoint = RawPoint(timestampMs: int, volume: real)

  /** One row of the returned series. */
  datatype Point = Point(date: string, volume: real, volumeSma: Option<real>)

  /** The sum of `v[lo]` through `v[hi - 1]`. */
  function SumRange(v: seq<real>, lo: nat, hi: nat): real
    requires lo <= hi <= |v|
    decreases hi - lo
  {
    if lo == hi then 0.0 else SumRange(v, lo, hi - 1) + v[hi - 1]
  }

  lemma {:induction false} SumRangeFront(v: seq<real>, lo: nat, hi: nat)
    requires lo < hi <= |v|
    ensures SumRange(v, lo, hi) == v[lo] + SumRange(v, lo + 1, hi)
    decreases hi - lo
  {
    if lo + 1 < hi {
      SumRangeFront(v, lo, hi - 1);
    }
  }

  /** The mean of the `Window` points ending at index `i`. */
  function WindowMean(v: seq<real>, i: nat): real
    requires Window - 1 <= i < |v|
  {
    SumRange(v, i - (Window - 1), i + 1) / Window as real
  }

  /** The reference value of the trailing mean at index `i`. */
  function SmaAt(v: seq<real>, i: nat): Option<real>
    requires i < |v|
  {
    if i < Window - 1 then None else Some(WindowMean(v, i))
  }

  /** The start of the window that ends just before index `n`. */
  function WindowStart(n: nat): nat {
    if n < Window then 0 else n - Window
  }

  /** Moving the window one point on: add the newest point and, once the
      window is full, drop the oldest. */
  lemma WindowSlide(v: seq<real>, n: nat)
    requires n < |v|
    ensures SumRange(v, WindowStart(n + 1), n + 1)
      == SumRange(v, WindowStart(n), n) + v[n] - (if n >= Window then v[n - Window] else 0.0)
  {
    if n >= Window {
      SumRangeFront(v, n - Window, n + 1);
    }
  }

  /** `Series.rolling(7).mean()`, computed as pandas does, by a running
      window sum that adds the newest point and drops the oldest. */
  method RollingMean(v: seq<real>) returns (sma: seq<Option<real>>)
    ensures |sma| == |v|
    ensures forall i :: 0 <= i < |v| ==> (sma[i].None? <==> i < Window - 1)
    ensures forall i :: Window - 1 <= i < |v| ==> sma[i] == Some(WindowMean(v, i))
  {
    sma := [];
    var sum := 0.0;
    var n := 0;
    while n < |v|
      invariant 0 <= n <= |v|
      invariant |sma| == n
      invariant sum == SumRange(v, WindowStart(n), n)
      invariant forall i :: 0 <= i < n ==> sma[i] == SmaAt(v, i)
    {
      WindowSlide(v, n);
      var dropped := if n >= Window then v[n - Window] else 0.0;
      sum := sum + v[n] - dropped;
      var mean: Option<real> := None;
      if n >= Window - 1 {
        mean := Some(sum / Window as real);
      }
      assert mean == SmaAt(v, n);
      sma := sma + [mean];
      n := n + 1;
    }
  }

  /** Each volume multiplied by the factor. */
  function Scaled(raw: seq<RawPoint>, factor: real): (v: seq<real>)
    ensures |v| == |raw|
    ensures forall i :: 0 <= i < |raw| ==> v[i] == raw[i].volume * factor
  {
    seq(|raw|, i requires 0 <= i < |raw| => raw[i].volume * factor)
  }

  /** The rows of the series in chronological (input) order, each with its
      date, converted volume and trailing mean: the reference the sorted
      result is a permutation of. */
  function Rows(raw: seq<RawPoint>, factor: real, toDate: real -> string): (rows: seq<Point>)
    ensures |rows| == |raw|
    ensures forall i :: 0 <= i < |raw| ==> rows[i].volume == raw[i].volume * factor
    ensures forall i :: 0 <= i < |raw| ==> (rows[i].volumeSma.None? <==> i < Window - 1)
    ensures forall i :: Window - 1 <= i < |raw| ==>
      rows[i].volumeSma == Some(WindowMean(Scaled(raw, factor), i))
    ensures forall i :: 0 <= i < |raw| ==> rows[i].date == toDate(raw[i].timestampMs as real / 1000.0)
  {
    var v := Scaled(raw, factor);
    seq(|raw|, i requires 0 <= i < |raw| =>
      Point(toDate(raw[i].timestampMs as real / 1000.0), v[i], SmaAt(v, i)))
  }

  /** "p may be listed before q": p's date is not earlier than q's, dates
      being compared as strings. */
  predicate ByDateDesc(p: Point, q: Point) {
    LexLe(q.date, p.date)
  }

  lemma ByDateDescIsTotalPreorder()
    ensures TotalPreorder(ByDateDesc)
  {
    forall p: Point, q: Point
      ensures ByDateDesc(p, q) || ByDateDesc(q, p)
    {
      LexLeTotal(p.date, q.date);
    }
    forall p: Point, q: Point, r: Point | ByDateDesc(p, q) && ByDateDesc(q, r)
      ensures ByDateDesc(p, r)
    {
      LexLeTransitive(r.date, q.date, p.date);
    }
  }

  /** pandas' default sort is not stable, so rows of one date may come out
      in any order. Any two date-sorted permutations of the same rows still
      list the same date at every position. */
  lemma DateColumnFixed(s1: seq<Point>, s2: seq<Point>)
    requires SortedBy(s1, ByDateDesc) && SortedBy(s2, ByDateDesc)
    requires multiset(s1) == multiset(s2)
    ensures |s1| == |s2|
    ensures forall i :: 0 <= i < |s1| ==> s1[i].date == s2[i].date
  {
    ByDateDescIsTotalPreorder();
    SortedPermutationsTie(s1, s2, ByDateDesc);
    forall i | 0 <= i < |s1|
      ensures s1[i].date == s2[i].date
    {
      LexLeAntisymmetric(s1[i].date, s2[i].date);
    }
  }

  /** `get_vol_exchange` after the HTTP call: convert every volume by the
      factor, attach the 7-point trailing mean computed in input order, and
      sort the rows by date, latest first. `toDate` renders seconds since
      the epoch as a `%Y-%m-%d` date. */
  method VolumeSeries(raw: seq<RawPoint>, baseCurr: string, rates: map<string, real>,
                      toDate: real -> string)
    returns (series: seq<Point>)
    ensures |series| == |raw|
    ensures SortedBy(series, ByDateDesc)
    ensures multiset(series) == multiset(Rows(raw, ConversionFactor(baseCurr, rates), toDate))
  {
    var factor := ConversionFactor(baseCurr, rates);
    var dates: seq<string> := [];
    var volumes: seq<real> := [];
    var i := 0;
    while i < |raw|
      invariant 0 <= i <= |raw|
      invariant |dates| == |volumes| == i
      invariant forall k :: 0 <= k < i ==> dates[k] == toDate(raw[k].timestampMs as real / 1000.0)
      invariant forall k :: 0 <= k < i ==> volumes[k] == raw[k].volume * factor
    {
      dates := dates + [toDate(raw[i].timestampMs as real / 1000.0)];
      volumes := volumes + [raw[i].volume * factor];
      i := i + 1;
    }
    assert forall k :: 0 <= k < |raw| ==> volumes[k] == Scaled(raw, factor)[k];
    assert volumes == Scaled(raw, factor);
    var sma := RollingMean(volumes);
    var rows := seq(|raw|, k requires 0 <= k < |raw| => Point(dates[k], volumes[k], sma[k]));
    assert rows == Rows(raw, factor, toDate);
    ByDateDescIsTotalPreorder();
    series := Sort(rows, ByDateDesc);
  }

  /** Converting the volumes and then averaging gives the same mean as
      averaging the raw volumes and then converting: every defined mean
      of the series is the factor times the mean of the raw volumes. */
  lemma MeanOfScaled(raw: seq<RawPoint>, factor: real, i: nat)
    requires Window - 1 <= i < |raw|
    ensures WindowMean(Scaled(raw, factor), i) == factor * WindowMean(Scaled(raw, 1.0), i)
  {
    SumScaled(Scaled(raw, 1.0), Scaled(raw, factor), factor, i - (Window - 1), i + 1);
  }

  lemma {:induction false} SumScaled(u: seq<real>, w: seq<real>, factor: real, lo: nat, hi: nat)
    requires lo <= hi <= |u| == |w|
    requires forall k :: lo <= k < hi ==> w[k] == u[k] * factor
    ensures SumRange(w, lo, hi) == factor * SumRange(u, lo, hi)
    decreases hi - lo
  {
    if lo < hi {
      SumScaled(u, w, factor, lo, hi - 1);
    }
  }

  /** A flat stretch of seven equal volumes has exactly that volume as its
      mean. */
  lemma FlatWindow(v: seq<real>, i: nat, c: real)
    requires Window - 1 <= i < |v|
    requires forall k :: i - (Window - 1) <= k <= i ==> v[k] == c
    ensures WindowMean(v, i) == c
  {
    SumConstant(v, i - (Window - 1), i + 1, c);
  }

  lemma {:induction false} SumConstant(v: seq<real>, lo: nat, hi: nat, c: real)
    requires lo <= hi <= |v|
    requires forall k :: lo <= k < hi ==> v[k] == c
    ensures SumRange(v, lo, hi) == (hi - lo) as real * c
    decreases hi - lo
  {
    if lo < hi {
      SumConstant(v, lo, hi - 1, c);
    }
  }
}
