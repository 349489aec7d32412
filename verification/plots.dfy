/** The two plots of src/util.rs, described abstractly: which traces a plot
    holds, in which order, with which data, and the range of its y axis.
    Plotly's HTML, colours, opacity, jitter and the trendline's floating-point
    values are not modelled. */
module Plots {
  import opened Wrappers
  import opened Ints
  import opened Models
  import opened Strings
  import opened Sorting
  import opened Stats

  datatype Trace =
    | Line(x: seq<string>, y: seq<int>)      // a user's times against dates
    | Trendline(x: seq<string>)              // the fitted line over the same dates
    | Box(name: string, values: seq<int>)    // a box plot of a user's times

  datatype Figure = Figure(divId: string, title: string, yLow: int, yHigh: int, traces: seq<Trace>)

  /** What a plot function hands to the page: a chart, a short message in
      place of the chart, or nothing (an empty string). */
  datatype PlotHtml = Chart(figure: Figure) | Placeholder(message: string) | Blank

  /** The request aborts: Rust panics on an integer division by zero. */
  datatype Panic = DivisionByZero

  const NEED_MORE_TIMES: string := "Need more times before we can plot!"

  /** Every sequence's time total is exact in `i32`. */
  predicate AllSummable(all: seq<seq<ResultEntry>>) {
    forall i :: 0 <= i < |all| ==> Summable(all[i])
  }

  predicate HasEmpty(all: seq<seq<ResultEntry>>) {
    exists i :: 0 <= i < |all| && all[i] == []
  }

  /** The largest of the per-sequence mean times, 0 when there are no
      sequences. */
  function MaxAverage(all: seq<seq<ResultEntry>>): (m: int)
    requires AllSummable(all) && !HasEmpty(all)
    ensures forall i :: 0 <= i < |all| ==> AverageTime(all[i]) <= m
    ensures |all| == 0 ==> m == 0
    ensures |all| > 0 ==> exists i :: 0 <= i < |all| && AverageTime(all[i]) == m
    ensures IsI32(m)
  {
    if all == [] then 0
    else
      assert all[0] != [];
      var rest := all[1..];
      assert forall i :: 0 <= i < |rest| ==> rest[i] == all[i + 1];
      var head := AverageTime(all[0]);
      if rest == [] then head
      else
        var m := MaxAverage(rest);
        if head >= m then head else m
  }

  /** `a` may precede `b` when its date text is not later in byte order. */
  function DateLe(a: ResultEntry, b: ResultEntry): bool {
    StrLe(a.date, b.date)
  }

  lemma DateLeIsTotalPreorder()
    ensures TotalPreorder(DateLe)
  {
    forall a: ResultEntry, b: ResultEntry
      ensures DateLe(a, b) || DateLe(b, a)
    {
      StrLeTotal(a.date, b.date);
    }
    forall a: ResultEntry, b: ResultEntry, c: ResultEntry | DateLe(a, b) && DateLe(b, c)
      ensures DateLe(a, c)
    {
      StrLeTransitive(a.date, b.date, c.date);
    }
  }

  /** One user's results in ascending date order; a stable sort, so results
      of the same date keep their order. */
  function SortByDate(s: seq<ResultEntry>): seq<ResultEntry> {
    SortBy(s, DateLe)
  }

  /** The date sort puts dates in ascending order and keeps the solves of one
      date in their original order. */
  lemma SortByDateCorrect(s: seq<ResultEntry>)
    ensures multiset(SortByDate(s)) == multiset(s)
    ensures forall i, j :: 0 <= i < j < |s| ==> StrLe(SortByDate(s)[i].date, SortByDate(s)[j].date)
    ensures forall k :: Equivalents(SortByDate(s), k, DateLe) == Equivalents(s, k, DateLe)
  {
    DateLeIsTotalPreorder();
    SortByCorrect(s, DateLe);
  }

  /** The two traces a sequence contributes to the scatter plot: its times by
      date and the trendline over the same dates. */
  function ScatterTraces(s: seq<ResultEntry>): (r: seq<Trace>)
    ensures |r| == 2
  {
    [TimesTrace(s), TrendTrace(s)]
  }

  function TimesTrace(s: seq<ResultEntry>): Trace {
    var sorted := SortByDate(s);
    Line(DatesOf(sorted), Times(sorted))
  }

  function TrendTrace(s: seq<ResultEntry>): Trace {
    Trendline(DatesOf(SortByDate(s)))
  }

  /** Whether `linear_regression` succeeds on a sequence's date-sorted times. */
  predicate Fits(s: seq<ResultEntry>, fits: seq<int> -> bool) {
    fits(Times(SortByDate(s)))
  }

  predicate SomeFitFails(all: seq<seq<ResultEntry>>, fits: seq<int> -> bool) {
    exists i :: 0 <= i < |all| && !Fits(all[i], fits)
  }

  /** The traces of every sequence, two per sequence, in input order. */
  function AllScatterTraces(all: seq<seq<ResultEntry>>): (r: seq<Trace>)
    ensures |r| == 2 * |all|
  {
    if all == [] then [] else ScatterTraces(all[0]) + AllScatterTraces(all[1..])
  }

  /** Sequence `i` owns traces `2i` (its times) and `2i + 1` (its trendline). */
  lemma {:induction false} AllScatterTracesAt(all: seq<seq<ResultEntry>>, i: nat)
    requires i < |all|
    ensures AllScatterTraces(all)[i + i] == TimesTrace(all[i])
    ensures AllScatterTraces(all)[i + i + 1] == TrendTrace(all[i])
    decreases i
  {
    var head := ScatterTraces(all[0]);
    var rest := AllScatterTraces(all[1..]);
    assert AllScatterTraces(all) == head + rest;
    if i > 0 {
      AllScatterTracesAt(all[1..], i - 1);
      assert all[1..][i - 1] == all[i];
      var j := i - 1;
      assert |head| == 2;
      ConcatIndex(head, rest, j + j + 2);
      ConcatIndex(head, rest, j + j + 3);
    }
  }

  lemma ConcatIndex<T>(a: seq<T>, b: seq<T>, k: nat)
    requires |a| <= k < |a| + |b|
    ensures (a + b)[k] == b[k - |a|]
  {
  }

  /** The trace loop of `generate_scatter_plot_html`: the traces of every
      sequence in order, or nothing as soon as a regression fails.
      `fits(times)` says whether `linear_regression` succeeds on those times. */
  function ScatterLoop(all: seq<seq<ResultEntry>>, fits: seq<int> -> bool): (r: Option<seq<Trace>>)
    ensures r.None? <==> SomeFitFails(all, fits)
    ensures r.Some? ==> r.value == AllScatterTraces(all)
  {
    if all == [] then Some([])
    else if !Fits(all[0], fits) then None
    else
      var rest := all[1..];
      assert forall i :: 1 <= i < |all| ==> all[i] == rest[i - 1];
      match ScatterLoop(rest, fits)
      case None =>
        ghost var k :| 0 <= k < |rest| && !Fits(rest[k], fits);
        assert !Fits(all[k + 1], fits);
        None
      case Some(traces) =>
        Some(ScatterTraces(all[0]) + traces)
  }

  /** `generate_scatter_plot_html`. The averages are taken first, so an empty
      sequence panics before the loop's own emptiness check is reached. */
  function ScatterPlot(all: seq<seq<ResultEntry>>, fits: seq<int> -> bool): (r: Result<PlotHtml, Panic>)
    requires AllSummable(all)
    ensures r.Err? <==> HasEmpty(all)
    ensures r.Ok? ==> r.value.Chart? || r.value == Placeholder(NEED_MORE_TIMES)
    ensures r == Ok(Placeholder(NEED_MORE_TIMES)) <==> !HasEmpty(all) && SomeFitFails(all, fits)
    ensures r.Ok? && r.value.Chart? ==>
      var f := r.value.figure;
      && f.divId == "scatter-plot"
      && f.yLow == 0 && f.yHigh == WrapI32(2 * MaxAverage(all))
      && |f.traces| == 2 * |all|
      && forall i :: 0 <= i < |all| ==>
           f.traces[i + i] == Line(DatesOf(SortByDate(all[i])), Times(SortByDate(all[i])))
           && f.traces[i + i + 1] == Trendline(DatesOf(SortByDate(all[i])))
  {
    if HasEmpty(all) then Err(DivisionByZero)
    else
      var yHigh := WrapI32(2 * MaxAverage(all));
      forall i | 0 <= i < |all|
        ensures AllScatterTraces(all)[i + i] == TimesTrace(all[i])
        ensures AllScatterTraces(all)[i + i + 1] == TrendTrace(all[i])
      {
        AllScatterTracesAt(all, i);
      }
      match ScatterLoop(all, fits)
      case None => Ok(Placeholder(NEED_MORE_TIMES))
      case Some(traces) => Ok(Chart(Figure("scatter-plot", "Line Plot", 0, yHigh, traces)))
  }

  /** One box per sequence, named after the user of its first entry. */
  function BoxTraces(all: seq<seq<ResultEntry>>): (r: seq<Trace>)
    requires !HasEmpty(all)
    ensures |r| == |all|
    ensures forall i :: 0 <= i < |all| ==> r[i] == Box(all[i][0].username, Times(all[i]))
  {
    if all == [] then []
    else
      var rest := all[1..];
      assert forall i :: 0 <= i < |rest| ==> rest[i] == all[i + 1];
      assert all[0] != [];
      [Box(all[0][0].username, Times(all[0]))] + BoxTraces(rest)
  }

  /** `generate_box_plot_html`: one box per sequence in input order, times in
      input order; an empty sequence panics in the averaging, so the
      placeholder is never produced. */
  function BoxPlot(all: seq<seq<ResultEntry>>): (r: Result<PlotHtml, Panic>)
    requires AllSummable(all)
    ensures r.Err? <==> HasEmpty(all)
    ensures r.Ok? ==> r.value.Chart?
    ensures r.Ok? ==>
      var f := r.value.figure;
      && f.divId == "box-plot"
      && f.yLow == 0 && f.yHigh == WrapI32(3 * MaxAverage(all))
      && |f.traces| == |all|
      && forall i :: 0 <= i < |all| ==> f.traces[i] == Box(all[i][0].username, Times(all[i]))
  {
    if HasEmpty(all) then Err(DivisionByZero)
    else
      var yHigh := WrapI32(3 * MaxAverage(all));
      Ok(Chart(Figure("box-plot", "Boxplot (Excluding Saturdays)", 0, yHigh, BoxTraces(all))))
  }

  /** When twice the largest mean fits in `i32`, the scatter plot's y axis
      runs exactly from 0 to that value; with no sequences it is [0, 0] and
      the chart has no traces. */
  lemma ScatterAxisRange(all: seq<seq<ResultEntry>>, fits: seq<int> -> bool)
    requires AllSummable(all) && !HasEmpty(all)
    ensures IsI32(2 * MaxAverage(all)) && ScatterPlot(all, fits).value.Chart? ==>
      ScatterPlot(all, fits).value.figure.yHigh == 2 * MaxAverage(all)
    ensures all == [] ==> ScatterPlot(all, fits) == Ok(Chart(Figure("scatter-plot", "Line Plot", 0, 0, [])))
  {
  }

  /** When three times the largest mean fits in `i32`, the box plot's y axis
      runs exactly from 0 to that value; with no sequences it is [0, 0]. */
  lemma BoxAxisRange(all: seq<seq<ResultEntry>>)
    requires AllSummable(all) && !HasEmpty(all)
    ensures IsI32(3 * MaxAverage(all)) ==> BoxPlot(all).value.figure.yHigh == 3 * MaxAverage(all)
    ensures all == [] ==> BoxPlot(all).value.figure.yHigh == 0 && BoxPlot(all).value.figure.traces == []
  {
  }
}
