/**
  Monthly aggregation: `data.groupby(pd.Grouper(key='Order Date',
  freq='M'))['Sales'].sum()` and the re-wrapping of its result as a series
  whose index is named `Date`.

  A month-end grouper makes one group for every calendar month from the
  month of the earliest order date to the month of the latest, labels each
  group with the last day of its month, and sums `Sales` over the rows
  whose date falls in it; a month without orders sums to 0. Rows without
  a date (NaT) belong to no group. The range is built from the column's
  earliest and latest date, so a table with rows but no date at all
  raises ValueError.
 */
module Monthly {
  import opened Calendar
  import opened Values
  import opened TimeSeries
  import opened Cleaning

  /** One dated row's contribution: its order date and its Sales amount. */
  datatype Order = Order(date: Date, amount: int)

  /**
    What one Sales cell adds to a sum: a number adds itself, a missing
    value adds nothing, and any other cell cannot be summed.
   */
  function Amount(v: Value): (a: Option<int>)
    ensures a.Some? <==> v.Num? || v.Null?
    ensures v.Null? ==> a == Some(0)
    ensures v.Num? ==> a == Some(v.n)
  {
    match v
    case Num(n) => Some(n)
    case Null => Some(0)
    case _ => None
  }

  predicate Dated(row: Row, dj: nat)
    requires dj < |row|
  {
    row[dj].Stamp?
  }

  /**
    The orders of the rows that have a date, in row order. A Sales cell
    that is not a number raises.
   */
  function Orders(rows: seq<Row>, dj: nat, sj: nat): (r: Result<seq<Order>>)
    requires Wide(rows, dj + 1) && Wide(rows, sj + 1)
    ensures r.Ok? <==> forall i :: 0 <= i < |rows| ==> Amount(rows[i][sj]).Some?
    ensures r.Raise? ==> r.error.SalesTypeError?
  {
    if rows == [] then Ok([])
    else match Amount(rows[0][sj])
      case None => Raise(SalesTypeError(rows[0][sj]))
      case Some(a) =>
        match Orders(rows[1..], dj, sj)
        case Raise(e) => Raise(e)
        case Ok(rest) =>
          Ok(if Dated(rows[0], dj) then [Order(rows[0][dj].date, a)] + rest else rest)
  }

  // ---------------------------------------------------------------------
  // Reference sums over the rows themselves

  /** Sales summed over the rows whose date falls in month `m`. */
  function RowSalesIn(rows: seq<Row>, dj: nat, sj: nat, m: int): int
    requires Wide(rows, dj + 1) && Wide(rows, sj + 1)
    requires forall i :: 0 <= i < |rows| ==> Amount(rows[i][sj]).Some?
  {
    if rows == [] then 0
    else
      (if Dated(rows[0], dj) && MonthNumber(rows[0][dj].date) == m
       then Amount(rows[0][sj]).value else 0)
      + RowSalesIn(rows[1..], dj, sj, m)
  }

  /** Sales summed over all the rows that have a date. */
  function RowSalesTotal(rows: seq<Row>, dj: nat, sj: nat): int
    requires Wide(rows, dj + 1) && Wide(rows, sj + 1)
    requires forall i :: 0 <= i < |rows| ==> Amount(rows[i][sj]).Some?
  {
    if rows == [] then 0
    else
      (if Dated(rows[0], dj) then Amount(rows[0][sj]).value else 0)
      + RowSalesTotal(rows[1..], dj, sj)
  }

  // ---------------------------------------------------------------------
  // Sums over orders

  function MonthTotal(os: seq<Order>, m: int): int {
    if os == [] then 0
    else (if MonthNumber(os[0].date) == m then os[0].amount else 0) + MonthTotal(os[1..], m)
  }

  function Total(os: seq<Order>): int {
    if os == [] then 0 else os[0].amount + Total(os[1..])
  }

  /** The month totals of the orders are the month totals of their rows. */
  lemma {:induction false} OrdersMonthTotal(rows: seq<Row>, dj: nat, sj: nat, m: int)
    requires Wide(rows, dj + 1) && Wide(rows, sj + 1)
    requires Orders(rows, dj, sj).Ok?
    ensures MonthTotal(Orders(rows, dj, sj).value, m) == RowSalesIn(rows, dj, sj, m)
    ensures Total(Orders(rows, dj, sj).value) == RowSalesTotal(rows, dj, sj)
  {
    if rows != [] {
      OrdersMonthTotal(rows[1..], dj, sj, m);
    }
  }

  /** No order falls in month `m`. */
  predicate NoOrdersIn(os: seq<Order>, m: int) {
    forall i :: 0 <= i < |os| ==> MonthNumber(os[i].date) != m
  }

  /** A month in which no order falls totals 0. */
  lemma {:induction false} EmptyMonthTotalsZero(os: seq<Order>, m: int)
    requires NoOrdersIn(os, m)
    ensures MonthTotal(os, m) == 0
  {
    if os != [] {
      assert NoOrdersIn(os[1..], m) by {
        forall i | 0 <= i < |os[1..]| ensures MonthNumber(os[1..][i].date) != m {
          assert os[1..][i] == os[i + 1];
        }
      }
      EmptyMonthTotalsZero(os[1..], m);
    }
  }

  /** The month of the earliest order. */
  function FirstMonth(os: seq<Order>): (m: int)
    requires os != []
    ensures forall i :: 0 <= i < |os| ==> m <= MonthNumber(os[i].date)
    ensures exists i :: 0 <= i < |os| && m == MonthNumber(os[i].date)
  {
    if |os| == 1 then MonthNumber(os[0].date)
    else
      var rest := FirstMonth(os[1..]);
      if MonthNumber(os[0].date) <= rest then MonthNumber(os[0].date) else rest
  }

  /** The month of the latest order. */
  function LastMonth(os: seq<Order>): (m: int)
    requires os != []
    ensures forall i :: 0 <= i < |os| ==> MonthNumber(os[i].date) <= m
    ensures exists i :: 0 <= i < |os| && m == MonthNumber(os[i].date)
  {
    if |os| == 1 then MonthNumber(os[0].date)
    else
      var rest := LastMonth(os[1..]);
      if rest <= MonthNumber(os[0].date) then MonthNumber(os[0].date) else rest
  }

  /** The `n` month groups starting at month `lo`, each labelled by its last day. */
  function Buckets(os: seq<Order>, lo: int, n: nat): (ps: seq<Point>)
    ensures |ps| == n
    ensures forall k :: 0 <= k < n ==> ps[k] == Point(MonthEnd(lo + k), MonthTotal(os, lo + k))
  {
    if n == 0 then []
    else Buckets(os, lo, n - 1) + [Point(MonthEnd(lo + n - 1), MonthTotal(os, lo + n - 1))]
  }

  /**
    The grouper's result: one group per month from the first order's to
    the last's, so there are no groups exactly when there are no orders.
   */
  function GroupByMonth(os: seq<Order>): (g: seq<Point>)
    ensures g == [] <==> os == []
    ensures os != [] ==> |g| == LastMonth(os) - FirstMonth(os) + 1
  {
    if os == [] then []
    else Buckets(os, FirstMonth(os), LastMonth(os) - FirstMonth(os) + 1)
  }

  // ---------------------------------------------------------------------
  // What the grouping guarantees

  /**
    The groups are the consecutive months from the earliest order's month
    to the latest's, each labelled by its last day, so the labels are
    strictly increasing; every order falls in one of them. No orders, no
    groups.
   */
  lemma GroupByMonthKeys(os: seq<Order>)
    ensures var g := GroupByMonth(os);
      && (os == [] <==> g == [])
      && (forall k :: 0 <= k < |g| ==>
            ValidDate(g[k].date) && g[k].date.day == DaysInMonth(g[k].date.year, g[k].date.month))
      && (forall k :: 0 <= k < |g| - 1 ==> MonthNumber(g[k + 1].date) == MonthNumber(g[k].date) + 1)
      && StrictlyIncreasing(g)
      && (os != [] ==>
            MonthNumber(g[0].date) == FirstMonth(os)
            && MonthNumber(g[|g| - 1].date) == LastMonth(os)
            && forall i :: 0 <= i < |os| ==>
                 0 <= MonthNumber(os[i].date) - MonthNumber(g[0].date) < |g|)
  {
    var g := GroupByMonth(os);
    if os != [] {
      var lo := FirstMonth(os);
      forall a, b | 0 <= a < b < |g| ensures Before(g[a].date, g[b].date) {
        EarlierMonthIsBefore(g[a].date, g[b].date);
      }
    }
  }

  /**
    Each group's total is the sum of the amounts of the orders in its
    month; a month without orders totals 0.
   */
  lemma GroupByMonthTotals(os: seq<Order>)
    ensures var g := GroupByMonth(os);
      && (forall k :: 0 <= k < |g| ==> g[k].value == MonthTotal(os, MonthNumber(g[k].date)))
      && (forall k :: 0 <= k < |g| && NoOrdersIn(os, MonthNumber(g[k].date)) ==> g[k].value == 0)
  {
    if os != [] {
      var lo := FirstMonth(os);
      var n := LastMonth(os) - lo + 1;
      forall k | 0 <= k < n
        ensures Buckets(os, lo, n)[k].value == MonthTotal(os, MonthNumber(Buckets(os, lo, n)[k].date))
        ensures NoOrdersIn(os, MonthNumber(Buckets(os, lo, n)[k].date)) ==> Buckets(os, lo, n)[k].value == 0
      {
        BucketTotal(os, lo, n, k);
      }
    }
  }

  /** Bucket `k` holds the total of its own month, which is 0 when no order falls in it. */
  lemma BucketTotal(os: seq<Order>, lo: int, n: nat, k: nat)
    requires k < n
    ensures var p := Buckets(os, lo, n)[k];
      && p.value == MonthTotal(os, MonthNumber(p.date))
      && (NoOrdersIn(os, MonthNumber(p.date)) ==> p.value == 0)
  {
    var m := lo + k;
    if NoOrdersIn(os, m) {
      EmptyMonthTotalsZero(os, m);
    }
  }

  lemma {:induction false} BucketsOfNoOrders(lo: int, n: nat)
    ensures Sum(Buckets([], lo, n)) == 0
  {
    if n > 0 {
      BucketsOfNoOrders(lo, n - 1);
      assert Buckets([], lo, n)[..n - 1] == Buckets([], lo, n - 1);
    }
  }

  /** Taking the first order out of every group's sum. */
  lemma {:induction false} BucketsSplitFirst(os: seq<Order>, lo: int, n: nat)
    requires os != []
    ensures Sum(Buckets(os, lo, n)) ==
      (if lo <= MonthNumber(os[0].date) < lo + n then os[0].amount else 0)
      + Sum(Buckets(os[1..], lo, n))
  {
    if n > 0 {
      BucketsSplitFirst(os, lo, n - 1);
      assert Buckets(os, lo, n)[..n - 1] == Buckets(os, lo, n - 1);
      assert Buckets(os[1..], lo, n)[..n - 1] == Buckets(os[1..], lo, n - 1);
    }
  }

  /** When every order falls in the `n` months from `lo`, the groups add up to the total. */
  lemma {:induction false} BucketsSumToTotal(os: seq<Order>, lo: int, n: nat)
    requires forall i :: 0 <= i < |os| ==> lo <= MonthNumber(os[i].date) < lo + n
    ensures Sum(Buckets(os, lo, n)) == Total(os)
  {
    if os == [] {
      BucketsOfNoOrders(lo, n);
    } else {
      BucketsSplitFirst(os, lo, n);
      BucketsSumToTotal(os[1..], lo, n);
    }
  }

  /** The monthly totals add up to the total amount of all orders. */
  lemma GroupByMonthSum(os: seq<Order>)
    ensures Sum(GroupByMonth(os)) == Total(os)
  {
    if os != [] {
      BucketsSumToTotal(os, FirstMonth(os), LastMonth(os) - FirstMonth(os) + 1);
    }
  }

  // ---------------------------------------------------------------------
  // Lines 24-30 of the preprocessing function

  const DateIndexName := "Date"

  /**
    The table has an `Order Date` column and at least one row, but no row
    has a date: the grouper has no earliest or latest date to build its
    month range from.
   */
  predicate NoOrderDates(t: Table)
    requires WellFormed(t)
  {
    match IndexOf(t.columns, OrderDate)
    case None => false
    case Some(dj) => t.rows != [] && forall i :: 0 <= i < |t.rows| ==> !Dated(t.rows[i], dj)
  }

  /**
    The monthly Sales series of a table whose `Order Date` column has
    been parsed. A missing `Order Date` raises a KeyError; the grouper is
    built next, so rows without any date raise ValueError; then a missing
    `Sales` column raises a KeyError, and a non-numeric Sales cell raises.
   */
  function MonthlySales(t: Table): (r: Result<Series>)
    requires WellFormed(t)
    ensures r == Raise(KeyError(OrderDate)) <==> OrderDate !in t.columns
    ensures r == Raise(ValueError) <==> NoOrderDates(t)
    ensures r == Raise(KeyError(Sales)) <==>
      OrderDate in t.columns && !NoOrderDates(t) && Sales !in t.columns
    ensures r.Raise? ==>
      r.error in {KeyError(OrderDate), KeyError(Sales), ValueError} || r.error.SalesTypeError?
    ensures r.Ok? ==>
      r.value.index.DatetimeIndex? && Aligned(r.value) && r.value.indexName == Some(DateIndexName)
  {
    match IndexOf(t.columns, OrderDate)
    case None => Raise(KeyError(OrderDate))
    case Some(dj) =>
      if NoOrderDates(t) then Raise(ValueError)
      else match IndexOf(t.columns, Sales)
      case None => Raise(KeyError(Sales))
      case Some(sj) =>
        match Orders(t.rows, dj, sj)
        case Raise(e) => Raise(e)
        case Ok(os) => Ok(AsSeries(GroupByMonth(os), DateIndexName))
  }

  /**
    Once both columns are found, the series is built exactly when every
    Sales cell is usable, and it holds the month groups of the orders.
    (`dj` and `sj` are the positions of `Order Date` and `Sales`.)
   */
  lemma MonthlySalesGroups(t: Table, dj: nat, sj: nat)
    requires WellFormed(t)
    requires IndexOf(t.columns, OrderDate) == Some(dj) && IndexOf(t.columns, Sales) == Some(sj)
    ensures Wide(t.rows, dj + 1) && Wide(t.rows, sj + 1)
    ensures MonthlySales(t).Ok? <==> !NoOrderDates(t) && Orders(t.rows, dj, sj).Ok?
    ensures MonthlySales(t).Ok? ==>
      Points(MonthlySales(t).value) == GroupByMonth(Orders(t.rows, dj, sj).value)
  {
  }

  /**
    On success the series has one entry per calendar month from the month
    of the earliest dated row to that of the latest, labelled with the
    month's last day and in strictly increasing order. It is empty exactly
    when the table has no rows.
   */
  lemma MonthlySalesKeys(t: Table, dj: nat, sj: nat)
    requires WellFormed(t)
    requires IndexOf(t.columns, OrderDate) == Some(dj) && IndexOf(t.columns, Sales) == Some(sj)
    ensures MonthlySales(t).Ok? ==>
      var ps := Points(MonthlySales(t).value);
      && StrictlyIncreasing(ps)
      && (forall k :: 0 <= k < |ps| ==>
            ValidDate(ps[k].date) && ps[k].date.day == DaysInMonth(ps[k].date.year, ps[k].date.month))
      && (forall k :: 0 <= k < |ps| - 1 ==> MonthNumber(ps[k + 1].date) == MonthNumber(ps[k].date) + 1)
      && (forall i :: 0 <= i < |t.rows| && Dated(t.rows[i], dj) ==>
            0 < |ps| && 0 <= MonthNumber(t.rows[i][dj].date) - MonthNumber(ps[0].date) < |ps|)
  {
    MonthlySalesGroups(t, dj, sj);
    if MonthlySales(t).Ok? {
      var os := Orders(t.rows, dj, sj).value;
      GroupByMonthKeys(os);
      forall i | 0 <= i < |t.rows| && Dated(t.rows[i], dj)
        ensures exists o :: o in os && o.date == t.rows[i][dj].date
      {
        DatedRowHasOrder(t.rows, dj, sj, i);
      }
    }
  }

  /**
    On success the first key is the month of some dated row and so is the
    last one, so the series starts no earlier and ends no later than the
    dated rows; and it is empty exactly when the table has no rows.
   */
  lemma MonthlySalesRange(t: Table, dj: nat, sj: nat)
    requires WellFormed(t)
    requires IndexOf(t.columns, OrderDate) == Some(dj) && IndexOf(t.columns, Sales) == Some(sj)
    ensures MonthlySales(t).Ok? ==>
      var ps := Points(MonthlySales(t).value);
      && (ps == [] <==> t.rows == [])
      && (ps != [] ==>
            DatedRowIn(t.rows, dj, MonthNumber(ps[0].date))
            && DatedRowIn(t.rows, dj, MonthNumber(ps[|ps| - 1].date)))
  {
    MonthlySalesGroups(t, dj, sj);
    if MonthlySales(t).Ok? {
      var os := Orders(t.rows, dj, sj).value;
      var ps := Points(MonthlySales(t).value);
      GroupByMonthKeys(os);
      OrdersFromDatedRows(t.rows, dj, sj);
      if t.rows != [] {
        var i :| 0 <= i < |t.rows| && Dated(t.rows[i], dj);
        DatedRowHasOrder(t.rows, dj, sj, i);
      }
      if ps != [] {
        var a :| 0 <= a < |os| && FirstMonth(os) == MonthNumber(os[a].date);
        var b :| 0 <= b < |os| && LastMonth(os) == MonthNumber(os[b].date);
        assert os[a] in os && os[b] in os;
      }
    }
  }

  /** Some row is dated in month `m`. */
  predicate DatedRowIn(rows: seq<Row>, dj: nat, m: int)
    requires Wide(rows, dj + 1)
  {
    exists i :: 0 <= i < |rows| && Dated(rows[i], dj) && MonthNumber(rows[i][dj].date) == m
  }

  /** Every order comes from a dated row and carries that row's date. */
  lemma {:induction false} OrdersFromDatedRows(rows: seq<Row>, dj: nat, sj: nat)
    requires Wide(rows, dj + 1) && Wide(rows, sj + 1)
    requires Orders(rows, dj, sj).Ok?
    ensures forall o :: o in Orders(rows, dj, sj).value ==>
      exists i :: 0 <= i < |rows| && Dated(rows[i], dj) && rows[i][dj].date == o.date
  {
    if rows != [] {
      OrdersFromDatedRows(rows[1..], dj, sj);
      forall o | o in Orders(rows, dj, sj).value
        ensures exists i :: 0 <= i < |rows| && Dated(rows[i], dj) && rows[i][dj].date == o.date
      {
        if o !in Orders(rows[1..], dj, sj).value {
          assert Dated(rows[0], dj) && rows[0][dj].date == o.date;
        } else {
          var i :| 0 <= i < |rows[1..]| && Dated(rows[1..][i], dj) && rows[1..][i][dj].date == o.date;
          assert rows[i + 1] == rows[1..][i];
        }
      }
    }
  }

  /**
    On success every Sales cell is a number or null, each monthly value is
    the Sales total of the rows dated in that month, and the values add up
    to the Sales total of all dated rows.
   */
  lemma MonthlySalesTotals(t: Table, dj: nat, sj: nat)
    requires WellFormed(t)
    requires IndexOf(t.columns, OrderDate) == Some(dj) && IndexOf(t.columns, Sales) == Some(sj)
    ensures MonthlySales(t).Ok? ==> forall i :: 0 <= i < |t.rows| ==> Amount(t.rows[i][sj]).Some?
    ensures MonthlySales(t).Ok? ==>
      var ps := Points(MonthlySales(t).value);
      && (forall k :: 0 <= k < |ps| ==> ps[k].value == RowSalesIn(t.rows, dj, sj, MonthNumber(ps[k].date)))
      && Sum(ps) == RowSalesTotal(t.rows, dj, sj)
  {
    MonthlySalesGroups(t, dj, sj);
    if MonthlySales(t).Ok? {
      var os := Orders(t.rows, dj, sj).value;
      GroupByMonthTotals(os);
      GroupByMonthSum(os);
      forall m | true ensures MonthTotal(os, m) == RowSalesIn(t.rows, dj, sj, m) {
        OrdersMonthTotal(t.rows, dj, sj, m);
      }
      OrdersMonthTotal(t.rows, dj, sj, 0);
    }
  }

  /** Every dated row contributes an order with its date. */
  lemma {:induction false} DatedRowHasOrder(rows: seq<Row>, dj: nat, sj: nat, i: nat)
    requires Wide(rows, dj + 1) && Wide(rows, sj + 1)
    requires Orders(rows, dj, sj).Ok? && i < |rows| && Dated(rows[i], dj)
    ensures exists o :: o in Orders(rows, dj, sj).value && o.date == rows[i][dj].date
  {
    if i > 0 {
      DatedRowHasOrder(rows[1..], dj, sj, i - 1);
    }
  }
}
