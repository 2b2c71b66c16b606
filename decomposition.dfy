/**
  The input guard of `seasonal_decomposition_plot`: whatever it is given
  is reduced to a date-indexed series sorted by date, or rejected, before
  the additive decomposition (period 12) is computed and plotted. The
  decomposition and the plot are not part of this model.
 */
module SeasonalDecomposition {
  import opened Calendar
  import opened Values
  import opened TimeSeries
  import opened Cleaning
  import opened Monthly
  import opened Preprocessing

  /**
    What the caller may pass: a table (its shared row index and its
    columns, each a sequence of values), a series, or any other object,
    which may or may not carry an index of its own.
   */
  datatype Input =
    | FrameInput(index: Index, indexName: Option<string>, columns: seq<seq<int>>)
    | SeriesInput(series: Series)
    | OtherInput(ownIndex: Option<Index>)

  /** Tables and series hold one label per value. */
  predicate WellFormedInput(x: Input) {
    match x
    case FrameInput(index, _, columns) =>
      forall c :: 0 <= c < |columns| ==> |columns[c]| == IndexLength(index)
    case SeriesInput(s) => Aligned(s)
    case OtherInput(_) => true
  }

  const NotSeriesMessage := "Input must be a pandas Series with DatetimeIndex"
  const NotDatetimeMessage := "Series must have a DatetimeIndex"

  /**
    A table stands for its first column: a series with the table's index.
    Selecting the first column of a table without columns raises
    IndexError; anything else is passed through unchanged.
   */
  function AsSeriesInput(x: Input): (r: Result<Input>)
    requires WellFormedInput(x)
    ensures r.Ok? ==> WellFormedInput(r.value) && !r.value.FrameInput?
    ensures r == Raise(IndexError) <==> x.FrameInput? && x.columns == []
    ensures !x.FrameInput? ==> r == Ok(x)
    ensures x.FrameInput? && r.Ok? ==>
      r.value == SeriesInput(Series(x.index, x.indexName, x.columns[0]))
  {
    match x
    case FrameInput(index, indexName, columns) =>
      if columns == [] then Raise(IndexError)
      else Ok(SeriesInput(Series(index, indexName, columns[0])))
    case _ => Ok(x)
  }

  /**
    Inserts `p` into `ps` in front of the first point whose date is not
    before `p`'s date.
   */
  function Insert(p: Point, ps: seq<Point>): (r: seq<Point>)
    ensures multiset(r) == multiset(ps) + multiset{p}
  {
    if ps == [] then [p]
    else if NotAfter(p.date, ps[0].date) then [p] + ps
    else
      assert ps == [ps[0]] + ps[1..];
      [ps[0]] + Insert(p, ps[1..])
  }

  /** Inserting into sorted points keeps them sorted. */
  lemma {:induction false} InsertKeepsSorted(p: Point, ps: seq<Point>)
    requires SortedByDate(ps)
    ensures SortedByDate(Insert(p, ps))
  {
    if ps == [] {
    } else if NotAfter(p.date, ps[0].date) {
      PrependSorted(p, ps);
    } else {
      var tail := ps[1..];
      SortedTail(ps);
      InsertKeepsSorted(p, tail);
      var rest := Insert(p, tail);
      forall k | 0 <= k < |rest| ensures NotAfter(ps[0].date, rest[k].date) {
        assert rest[k] in multiset(rest);
        if rest[k] != p {
          assert rest[k] in multiset(tail);
          var m :| 0 <= m < |tail| && tail[m] == rest[k];
          assert ps[m + 1] == rest[k];
        }
      }
      PrependSorted(ps[0], rest);
    }
  }

  /** A point no later than every point of a sorted sequence may go in front of it. */
  lemma PrependSorted(p: Point, ps: seq<Point>)
    requires SortedByDate(ps)
    requires forall k :: 0 <= k < |ps| ==> NotAfter(p.date, ps[k].date)
    ensures SortedByDate([p] + ps)
  {
    var r := [p] + ps;
    forall a, b | 0 <= a < b < |r| ensures NotAfter(r[a].date, r[b].date) {
      if a == 0 {
        assert r[b] == ps[b - 1];
      } else {
        assert r[a] == ps[a - 1] && r[b] == ps[b - 1];
      }
    }
  }

  /**
    The points ordered by date (`sort_index`). Points with equal dates are
    kept, none is merged or dropped.
   */
  function SortByDate(ps: seq<Point>): (r: seq<Point>)
    ensures SortedByDate(r)
    ensures multiset(r) == multiset(ps)
  {
    if ps == [] then []
    else
      assert ps == [ps[0]] + ps[1..];
      InsertKeepsSorted(ps[0], SortByDate(ps[1..]));
      Insert(ps[0], SortByDate(ps[1..]))
  }

  /**
    The whole guard: reduce a table to its first column, insist on a
    series, insist on a date index, then sort by date.
   */
  function Normalize(x: Input): (r: Result<seq<Point>>)
    requires WellFormedInput(x)
    ensures r.Ok? ==> SortedByDate(r.value)
    ensures r.Raise? ==> r.error.TypeError? || r.error == IndexError
  {
    match AsSeriesInput(x)
    case Raise(e) => Raise(e)
    case Ok(y) =>
      if !y.SeriesInput? then Raise(TypeError(NotSeriesMessage))
      else if !y.series.index.DatetimeIndex? then Raise(TypeError(NotDatetimeMessage))
      else Ok(SortByDate(Points(y.series)))
  }

  /**
    The guard accepts exactly a series with a date index, or a table with
    at least one column and a date index.
   */
  lemma NormalizeAccepts(x: Input)
    requires WellFormedInput(x)
    ensures Normalize(x).Ok? <==>
      || (x.SeriesInput? && x.series.index.DatetimeIndex?)
      || (x.FrameInput? && x.columns != [] && x.index.DatetimeIndex?)
  {
  }

  /**
    On success the result holds exactly the points of the (first-column)
    series, each as often as it occurs, in date order; so it is as long as
    the series.
   */
  lemma NormalizePermutes(x: Input)
    requires WellFormedInput(x) && Normalize(x).Ok?
    ensures var s := AsSeriesInput(x).value.series;
      && multiset(Normalize(x).value) == multiset(Points(s))
      && |Normalize(x).value| == |s.values|
  {
    var s := AsSeriesInput(x).value.series;
    assert |multiset(Normalize(x).value)| == |multiset(Points(s))|;
  }

  /** A table never fails the series check: it raises IndexError or is treated as its first column. */
  lemma FrameIsNeverRejectedAsNonSeries(index: Index, indexName: Option<string>, columns: seq<seq<int>>)
    requires WellFormedInput(FrameInput(index, indexName, columns))
    ensures Normalize(FrameInput(index, indexName, columns)) != Raise(TypeError(NotSeriesMessage))
    ensures columns != [] ==>
      Normalize(FrameInput(index, indexName, columns)) ==
      Normalize(SeriesInput(Series(index, indexName, columns[0])))
  {
  }

  /**
    Anything other than a table or a series raises the series error, even
    when it carries a date index: the series check comes first.
   */
  lemma NonSeriesRejectedFirst(x: Input)
    requires x.OtherInput?
    ensures Normalize(x) == Raise(TypeError(NotSeriesMessage))
  {
  }

  /** A series indexed by anything but dates raises the index error. */
  lemma LabelIndexRejected(s: Series)
    requires Aligned(s) && s.index.LabelIndex?
    ensures Normalize(SeriesInput(s)) == Raise(TypeError(NotDatetimeMessage))
  {
  }

  /** Points already in date order are left as they are. */
  lemma {:induction false} SortByDateOfSorted(ps: seq<Point>)
    requires SortedByDate(ps)
    ensures SortByDate(ps) == ps
  {
    if ps != [] {
      SortedTail(ps);
      SortByDateOfSorted(ps[1..]);
      assert ps == [ps[0]] + ps[1..];
      if |ps| > 1 {
        assert NotAfter(ps[0].date, ps[1..][0].date);
      }
    }
  }

  /** Dropping the first point keeps points sorted. */
  lemma SortedTail(ps: seq<Point>)
    requires SortedByDate(ps) && ps != []
    ensures SortedByDate(ps[1..])
  {
    var tail := ps[1..];
    forall a, b | 0 <= a < b < |tail| ensures NotAfter(tail[a].date, tail[b].date) {
      assert tail[a] == ps[a + 1] && tail[b] == ps[b + 1];
    }
  }

  /**
    Normalising the normalised series changes nothing, whatever its index
    is named.
   */
  lemma NormalizeIdempotent(x: Input, name: string)
    requires WellFormedInput(x) && Normalize(x).Ok?
    ensures Normalize(SeriesInput(AsSeries(Normalize(x).value, name))) == Normalize(x)
  {
    SortByDateOfSorted(Normalize(x).value);
  }

  /** Strictly increasing dates are in particular sorted. */
  lemma StrictlyIncreasingIsSorted(ps: seq<Point>)
    requires StrictlyIncreasing(ps)
    ensures SortedByDate(ps)
  {
  }

  /**
    The monthly series that preprocessing returns passes the guard and is
    already in date order, so sorting leaves it as it is.
   */
  lemma PreprocessedSeriesPassesUnchanged(t: Table, parse: Value -> Option<Date>)
    requires WellFormed(t)
    ensures var out := Preprocess(Read(t), parse);
      out.Done? ==>
      && WellFormedInput(SeriesInput(out.monthly)) && out.monthly.index.DatetimeIndex?
      && Normalize(SeriesInput(out.monthly)) == Ok(Points(out.monthly))
  {
    var out := Preprocess(Read(t), parse);
    if out.Done? {
      DoneIsCleanedAndAggregated(t, parse);
      var dj := IndexOf(out.data.columns, OrderDate).value;
      var sj := IndexOf(out.data.columns, Sales).value;
      MonthlySalesKeys(out.data, dj, sj);
      StrictlyIncreasingIsSorted(Points(out.monthly));
      SortByDateOfSorted(Points(out.monthly));
    }
  }
}
