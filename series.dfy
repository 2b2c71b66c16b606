/**
  Labelled one-dimensional series: the monthly sales series that
  preprocessing returns and the input of the seasonal decomposition.
 */
module TimeSeries {
  import opened Calendar
  import opened Values

  /** One observation of a date-indexed series. */
  datatype Point = Point(date: Date, value: int)

  /** The labels of a series or table: dates (a DatetimeIndex) or anything else. */
  datatype Index = DatetimeIndex(dates: seq<Date>) | LabelIndex(labels: seq<Value>)

  datatype Series = Series(index: Index, indexName: Option<string>, values: seq<int>)

  function IndexLength(i: Index): nat {
    match i
    case DatetimeIndex(ds) => |ds|
    case LabelIndex(ls) => |ls|
  }

  /** Every series holds exactly one label per value. */
  predicate Aligned(s: Series) {
    IndexLength(s.index) == |s.values|
  }

  /** The (date, value) pairs of a date-indexed series, in index order. */
  function Points(s: Series): (ps: seq<Point>)
    requires s.index.DatetimeIndex? && Aligned(s)
    ensures |ps| == |s.values|
    ensures forall k :: 0 <= k < |ps| ==> ps[k] == Point(s.index.dates[k], s.values[k])
  {
    seq(|s.values|, k requires 0 <= k < |s.values| => Point(s.index.dates[k], s.values[k]))
  }

  /**
    Wraps date/value pairs as a series with a DatetimeIndex named
    `indexName`: the result carries exactly the given pairs, in order.
   */
  function AsSeries(ps: seq<Point>, indexName: string): (s: Series)
    ensures s.index.DatetimeIndex? && Aligned(s)
    ensures s.indexName == Some(indexName)
    ensures Points(s) == ps
  {
    Series(DatetimeIndex(seq(|ps|, k requires 0 <= k < |ps| => ps[k].date)),
           Some(indexName),
           seq(|ps|, k requires 0 <= k < |ps| => ps[k].value))
  }

  /** Dates in non-decreasing order. */
  predicate SortedByDate(ps: seq<Point>) {
    forall a, b :: 0 <= a < b < |ps| ==> NotAfter(ps[a].date, ps[b].date)
  }

  /** Dates in strictly increasing order. */
  predicate StrictlyIncreasing(ps: seq<Point>) {
    forall a, b :: 0 <= a < b < |ps| ==> Before(ps[a].date, ps[b].date)
  }

  function Sum(ps: seq<Point>): int {
    if ps == [] then 0 else Sum(ps[..|ps| - 1]) + ps[|ps| - 1].value
  }
}
