/**
  `load_and_preprocess_data`: read the sales file, clean the table in
  place, parse the order dates and build the monthly Sales series.

  Reading the CSV file is not modelled; its outcome is an input: the file
  is missing, the file is empty (no columns at all), or a table was read.
  The date parser is an input too.
 */
module Preprocessing {
  import opened Calendar
  import opened Values
  import opened Positions
  import opened TimeSeries
  import opened Cleaning
  import opened Monthly

  /** What `pd.read_csv` produced. */
  datatype ReadOutcome = FileNotFound | EmptyFile | Read(table: Table)

  /**
    What the function returns or raises: `(None, None)` when the file is
    missing or empty, an exception that escapes it, or the cleaned table
    and the monthly series.
   */
  datatype Loaded = NoData | Raised(error: Error) | Done(data: Table, monthly: Series)

  predicate Readable(read: ReadOutcome) {
    read.Read? ==> WellFormed(read.table)
  }

  /**
    The outcome of the whole function on a read outcome. The exceptions
    that can escape are a KeyError for `Order Date` or `Sales`, a date that
    does not parse, a Sales cell that cannot be summed, and the ValueError
    of a date column without any date.
   */
  function Preprocess(read: ReadOutcome, parse: Value -> Option<Date>): (out: Loaded)
    requires Readable(read)
    ensures out.Raised? ==>
      out.error in {KeyError(OrderDate), KeyError(Sales), ValueError}
      || out.error.DateParseError? || out.error.SalesTypeError?
  {
    match read
    case FileNotFound => NoData
    case EmptyFile => NoData
    case Read(t) =>
      match WithParsedDates(Clean(t), parse)
      case Raise(e) => Raised(e)
      case Ok(data) =>
        match MonthlySales(data)
        case Raise(e) => Raised(e)
        case Ok(s) => Done(data, s)
  }

  /** The function itself: the table is changed in place step by step. */
  method LoadAndPreprocess(read: ReadOutcome, parse: Value -> Option<Date>) returns (out: Loaded)
    requires Readable(read)
    ensures out == Preprocess(read, parse)
  {
    if !read.Read? {
      return NoData;
    }
    var cleaned := CleanInPlace(read.table, parse);
    match cleaned
    case Raise(e) =>
      out := Raised(e);
    case Ok(data) =>
      var monthly := MonthlySales(data);
      match monthly
      case Raise(e) =>
        out := Raised(e);
      case Ok(s) =>
        out := Done(data, s);
  }

  /**
    The in-place part: the frame read from the file loses its constant
    columns, then its repeated rows, then gets its dates parsed.
   */
  method CleanInPlace(t: Table, parse: Value -> Option<Date>) returns (r: Result<Table>)
    requires WellFormed(t)
    ensures r == WithParsedDates(Clean(t), parse)
  {
    var data := new Frame(t);
    data.DropConstantColumns();
    data.DropDuplicates();
    assert data.Model() == Clean(t);
    var err := data.ConvertOrderDate(parse);
    if err.Some? {
      return Raise(err.value);
    }
    return Ok(data.Model());
  }

  /**
    A missing or empty file gives `(None, None)`, and only those do: once
    a table is read, the function returns both results or raises.
   */
  lemma NoDataExactlyWhenUnread(read: ReadOutcome, parse: Value -> Option<Date>)
    requires Readable(read)
    ensures Preprocess(read, parse) == NoData <==> !read.Read?
  {
  }

  /**
    The returned table is the cleaned table with its `Order Date` column
    parsed (same columns, same number of rows), so every column except
    `Order Date` still has a number of distinct non-null values other than
    1. The series is the monthly Sales of that table.
   */
  lemma DoneIsCleanedAndAggregated(t: Table, parse: Value -> Option<Date>)
    requires WellFormed(t)
    ensures var out := Preprocess(Read(t), parse);
      out.Done? ==>
      && WithParsedDates(Clean(t), parse) == Ok(out.data)
      && MonthlySales(out.data) == Ok(out.monthly)
      && WellFormed(out.data)
      && out.data.columns == Clean(t).columns && |out.data.rows| == |Clean(t).rows|
      && (forall k :: 0 <= k < |out.data.columns| && out.data.columns[k] != OrderDate ==>
            !IsConstant(out.data.rows, k))
  {
    if Preprocess(Read(t), parse).Done? {
      CleanInvariant(t);
      ParsedDatesShape(Clean(t), parse);
      ParsedDatesKeepNoConstant(Clean(t), parse);
    }
  }

  /** Parsing the dates cannot make a column other than `Order Date` constant. */
  lemma ParsedDatesKeepNoConstant(c: Table, parse: Value -> Option<Date>)
    requires WellFormed(c) && NoConstantColumn(c) && WithParsedDates(c, parse).Ok?
    ensures WellFormed(WithParsedDates(c, parse).value)
    ensures var u := WithParsedDates(c, parse).value;
      forall k :: 0 <= k < |u.columns| && u.columns[k] != OrderDate ==> !IsConstant(u.rows, k)
  {
    var u := WithParsedDates(c, parse).value;
    ParsedDatesShape(c, parse);
    forall k | 0 <= k < |u.columns| && u.columns[k] != OrderDate
      ensures !IsConstant(u.rows, k)
    {
      ParsedDatesKeepDistinct(c, parse, k);
      assert !IsConstant(c.rows, k);
    }
  }

  /** Parsing the dates keeps the columns and the number of rows. */
  lemma ParsedDatesShape(c: Table, parse: Value -> Option<Date>)
    requires WellFormed(c) && WithParsedDates(c, parse).Ok?
    ensures WellFormed(WithParsedDates(c, parse).value)
    ensures WithParsedDates(c, parse).value.columns == c.columns
    ensures |WithParsedDates(c, parse).value.rows| == |c.rows|
  {
  }

  /** Parsing the dates leaves the distinct values of every other column as they were. */
  lemma ParsedDatesKeepDistinct(c: Table, parse: Value -> Option<Date>, k: nat)
    requires WellFormed(c) && WithParsedDates(c, parse).Ok?
    requires k < |c.columns| && c.columns[k] != OrderDate
    ensures WellFormed(WithParsedDates(c, parse).value)
    ensures Distinct(WithParsedDates(c, parse).value.rows, k) == Distinct(c.rows, k)
  {
    var u := WithParsedDates(c, parse).value;
    var j := IndexOf(c.columns, OrderDate).value;
    assert j != k;
    assert forall i :: 0 <= i < |c.rows| ==> u.rows[i][k] == c.rows[i][k];
  }

  /**
    A file with a single data row loses every column whose cell in that
    row is filled, since each such column has exactly one distinct value;
    when `Order Date` is one of them, reading it back raises a KeyError.
   */
  lemma SingleRowRaisesKeyError(t: Table, parse: Value -> Option<Date>)
    requires WellFormed(t) && |t.rows| == 1
    requires OrderDate in t.columns && Cell(t, 0, OrderDate) != Some(Null)
    ensures Preprocess(Read(t), parse) == Raised(KeyError(OrderDate))
  {
    var j := IndexOf(t.columns, OrderDate).value;
    assert Distinct(t.rows, j) == {t.rows[0][j]};
    PrunedColumns(t);
    assert OrderDate !in Clean(t).columns;
    WithParsedDatesSpec(Clean(t), parse);
  }

  /**
    A file with a header but no data rows is not an error: the result is
    an empty table and an empty monthly series.
   */
  lemma HeaderOnlyFileGivesEmptySeries(t: Table, parse: Value -> Option<Date>)
    requires WellFormed(t) && t.rows == []
    requires OrderDate in t.columns && Sales in t.columns
    ensures Preprocess(Read(t), parse).Done?
    ensures Preprocess(Read(t), parse).data.rows == []
    ensures Preprocess(Read(t), parse).monthly.values == []
  {
    forall j | 0 <= j < |t.columns| ensures !IsConstant(t.rows, j) {
      assert Distinct(t.rows, j) == {};
    }
    KeptAllColumns(t.rows, |t.columns|);
    PickAll(t.columns);
    var c := Table(t.columns, []);
    assert Pruned(t) == c;
    assert Clean(t) == c;
    var j := IndexOf(t.columns, OrderDate).value;
    assert ParseColumn([], j, parse) == Ok([]);
    assert WithParsedDates(c, parse) == Ok(c);
    var sj := IndexOf(t.columns, Sales).value;
    assert Orders([], j, sj) == Ok([]);
    assert MonthlySales(c) == Ok(AsSeries([], DateIndexName));
  }

  /**
    A file with rows whose `Order Date` cells are all empty keeps that
    column (it has no distinct value), parses every cell to NaT, and then
    the month grouper has no date to start from: ValueError.
   */
  lemma UndatedFileRaisesValueError(t: Table, parse: Value -> Option<Date>)
    requires WellFormed(t) && t.rows != [] && OrderDate in t.columns
    requires forall i :: 0 <= i < |t.rows| ==> Cell(t, i, OrderDate) == Some(Null)
    ensures Preprocess(Read(t), parse) == Raised(ValueError)
  {
    var c := Clean(t);
    CleanKeepsEmptyDates(t);
    WithParsedDatesSpec(c, parse);
    var u := WithParsedDates(c, parse).value;
    var j := IndexOf(u.columns, OrderDate).value;
    forall i | 0 <= i < |u.rows| ensures !u.rows[i][j].Stamp? {
      assert Cell(c, i, OrderDate) == Some(Null);
      assert Cell(u, i, OrderDate) == Some(u.rows[i][j]);
    }
    assert NoOrderDates(u);
  }

  /** Cleaning keeps a non-empty table's `Order Date` column when all its cells are empty. */
  lemma CleanKeepsEmptyDates(t: Table)
    requires WellFormed(t) && t.rows != [] && OrderDate in t.columns
    requires forall i :: 0 <= i < |t.rows| ==> Cell(t, i, OrderDate) == Some(Null)
    ensures OrderDate in Clean(t).columns && Clean(t).rows != []
    ensures forall i :: 0 <= i < |Clean(t).rows| ==> Cell(Clean(t), i, OrderDate) == Some(Null)
  {
    var j := IndexOf(t.columns, OrderDate).value;
    forall i | 0 <= i < |t.rows| ensures t.rows[i][j] == Null {
      assert Cell(t, i, OrderDate) == Some(Null);
    }
    NoDistinctValueExactlyWhenAllNull(t.rows, j);
    PrunedColumns(t);
    PrunedKeepsCells(t);
    var p := Pruned(t);
    var c := Clean(t);
    var pj := IndexOf(p.columns, OrderDate).value;
    forall i | 0 <= i < |p.rows| ensures p.rows[i][pj] == Null {
      assert Cell(p, i, OrderDate) == Cell(t, i, OrderDate);
    }
    forall i | 0 <= i < |c.rows| ensures Cell(c, i, OrderDate) == Some(Null) {
      assert c.rows[i] in p.rows;
    }
    assert p.rows[0] in p.rows;
  }
}
