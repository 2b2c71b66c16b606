/**
  The sales table and the three in-place steps `load_and_preprocess_data`
  applies to it: dropping every column with exactly one distinct non-null
  value, dropping repeated rows (the first occurrence stays), and replacing
  the `Order Date` column by its parsed dates.

  Each step has a specification function on `Table` values (`Pruned`,
  `Deduplicated`, `WithParsedDates`) and a method of the mutable `Frame` that is
  proved to do the same thing in place.
 */
module Cleaning {
  import opened Calendar
  import opened Values
  import opened Positions

  type Row = seq<Value>

  /** A table: column names and rows of cells, one cell per column. */
  datatype Table = Table(columns: seq<string>, rows: seq<Row>)

  const OrderDate := "Order Date"
  const Sales := "Sales"

  /**
    What every table read from a CSV file satisfies: column names are
    distinct (the reader renames repeated headers) and each row has one
    cell per column.
   */
  predicate WellFormed(t: Table) {
    (forall a, b :: 0 <= a < b < |t.columns| ==> t.columns[a] != t.columns[b])
    && (forall i :: 0 <= i < |t.rows| ==> |t.rows[i]| == |t.columns|)
  }

  /** Every row has at least `n` cells. */
  predicate Wide(rows: seq<Row>, n: nat) {
    forall i :: 0 <= i < |rows| ==> n <= |rows[i]|
  }

  /** The cell of row `i` under the column called `name`, if there is one. */
  function Cell(t: Table, i: nat, name: string): Option<Value>
    requires WellFormed(t) && i < |t.rows|
  {
    match IndexOf(t.columns, name)
    case None => None
    case Some(j) => Some(t.rows[i][j])
  }

  // ---------------------------------------------------------------------
  // Constant-column pruning

  /**
    The distinct non-null values of column `j`; `nunique` is its size.
    Missing values are not counted.
   */
  function Distinct(rows: seq<Row>, j: nat): (d: set<Value>)
    requires Wide(rows, j + 1)
    ensures Null !in d
  {
    set i | 0 <= i < |rows| && rows[i][j] != Null :: rows[i][j]
  }

  /** A column has no distinct value exactly when all its cells are missing. */
  lemma NoDistinctValueExactlyWhenAllNull(rows: seq<Row>, j: nat)
    requires Wide(rows, j + 1)
    ensures Distinct(rows, j) == {} <==> forall i :: 0 <= i < |rows| ==> rows[i][j] == Null
  {
    if exists i :: 0 <= i < |rows| && rows[i][j] != Null {
      var i :| 0 <= i < |rows| && rows[i][j] != Null;
      assert rows[i][j] in Distinct(rows, j);
    }
  }

  /** A column is dropped when it has exactly one distinct non-null value. */
  predicate IsConstant(rows: seq<Row>, j: nat)
    requires Wide(rows, j + 1)
  {
    |Distinct(rows, j)| == 1
  }

  /**
    A column has exactly one distinct non-null value when it has a
    non-null cell and every non-null cell equals that one.
   */
  lemma ConstantColumnHasOneValue(rows: seq<Row>, j: nat)
    requires Wide(rows, j + 1)
    ensures IsConstant(rows, j) <==>
      exists i :: 0 <= i < |rows| && rows[i][j] != Null &&
        forall k :: 0 <= k < |rows| ==> rows[k][j] == Null || rows[k][j] == rows[i][j]
  {
    var d := Distinct(rows, j);
    if IsConstant(rows, j) {
      var v :| v in d;
      var i :| 0 <= i < |rows| && rows[i][j] != Null && rows[i][j] == v;
      assert |d - {v}| == 0;
      forall k | 0 <= k < |rows| ensures rows[k][j] == Null || rows[k][j] == v {
        if rows[k][j] != Null {
          assert rows[k][j] in d - {v} || rows[k][j] == v;
        }
      }
    }
    if exists i :: 0 <= i < |rows| && rows[i][j] != Null &&
        forall k :: 0 <= k < |rows| ==> rows[k][j] == Null || rows[k][j] == rows[i][j]
    {
      var i :| 0 <= i < |rows| && rows[i][j] != Null &&
        forall k :: 0 <= k < |rows| ==> rows[k][j] == Null || rows[k][j] == rows[i][j];
      assert d == {rows[i][j]};
    }
  }

  /**
    Two different non-null cells keep a column. A row-id column with two or
    more rows is therefore kept; only in a one-row table is it dropped.
   */
  lemma TwoValuesNotConstant(rows: seq<Row>, j: nat, a: nat, b: nat)
    requires Wide(rows, j + 1) && a < |rows| && b < |rows|
    requires rows[a][j] != Null && rows[b][j] != Null && rows[a][j] != rows[b][j]
    ensures !IsConstant(rows, j)
  {
    ConstantColumnHasOneValue(rows, j);
  }

  /** A column with a single row and a non-null cell is always dropped. */
  lemma OneRowColumnIsConstant(rows: seq<Row>, j: nat)
    requires Wide(rows, j + 1) && |rows| == 1 && rows[0][j] != Null
    ensures IsConstant(rows, j)
  {
    ConstantColumnHasOneValue(rows, j);
  }

  /**
    The positions, in increasing order, of the columns among the first `n`
    that survive pruning.
   */
  function KeptColumns(rows: seq<Row>, n: nat): (keep: seq<nat>)
    requires Wide(rows, n)
    ensures Increasing(keep) && AllBelow(keep, n) && |keep| <= n
    ensures forall j :: 0 <= j < n ==> (j in keep <==> !IsConstant(rows, j))
  {
    if n == 0 then []
    else if IsConstant(rows, n - 1) then KeptColumns(rows, n - 1)
    else KeptColumns(rows, n - 1) + [n - 1]
  }

  function PickEach(rows: seq<Row>, keep: seq<nat>): (r: seq<Row>)
    requires forall i :: 0 <= i < |rows| ==> AllBelow(keep, |rows[i]|)
    ensures |r| == |rows|
    ensures forall i :: 0 <= i < |rows| ==> r[i] == Pick(rows[i], keep)
  {
    seq(|rows|, i requires 0 <= i < |rows| => Pick(rows[i], keep))
  }

  /** The table with its constant columns removed. */
  function Pruned(t: Table): (p: Table)
    requires WellFormed(t)
    ensures WellFormed(p)
    ensures |p.columns| <= |t.columns| && |p.rows| == |t.rows|
  {
    var keep := KeptColumns(t.rows, |t.columns|);
    Table(Pick(t.columns, keep), PickEach(t.rows, keep))
  }

  /** With distinct names, a column is found at its own position. */
  lemma IndexOfDistinct(names: seq<string>, j: nat)
    requires j < |names|
    requires forall a, b :: 0 <= a < b < |names| ==> names[a] != names[b]
    ensures IndexOf(names, names[j]) == Some(j)
  {
  }

  /** Where column `k` of the pruned table sits in the pruned and in the original table. */
  lemma PrunedPosition(t: Table, k: nat)
    requires WellFormed(t) && k < |Pruned(t).columns|
    ensures Pruned(t).columns[k] == t.columns[KeptColumns(t.rows, |t.columns|)[k]]
    ensures IndexOf(t.columns, Pruned(t).columns[k]) == Some(KeptColumns(t.rows, |t.columns|)[k])
    ensures IndexOf(Pruned(t).columns, Pruned(t).columns[k]) == Some(k)
  {
    IndexOfDistinct(t.columns, KeptColumns(t.rows, |t.columns|)[k]);
    IndexOfDistinct(Pruned(t).columns, k);
  }

  /**
    Pruning drops a column exactly when it has one distinct non-null value:
    a column is kept when it has no non-null value, or two or more distinct
    non-null values. It adds no column.
   */
  lemma PrunedColumns(t: Table)
    requires WellFormed(t)
    ensures forall c :: c in Pruned(t).columns ==> c in t.columns
    ensures forall j :: 0 <= j < |t.columns| ==>
      (t.columns[j] in Pruned(t).columns <==> !IsConstant(t.rows, j))
  {
    var keep := KeptColumns(t.rows, |t.columns|);
    var p := Pruned(t);
    forall j | 0 <= j < |t.columns|
      ensures t.columns[j] in p.columns <==> !IsConstant(t.rows, j)
    {
      if t.columns[j] in p.columns {
        var k :| 0 <= k < |p.columns| && p.columns[k] == t.columns[j];
        IndexOfDistinct(t.columns, j);
        PrunedPosition(t, k);
      }
    }
  }

  /** The surviving columns keep their relative order. */
  lemma PrunedKeepsColumnOrder(t: Table)
    requires WellFormed(t)
    ensures forall k :: 0 <= k < |Pruned(t).columns| ==> Pruned(t).columns[k] in t.columns
    ensures forall a, b :: 0 <= a < b < |Pruned(t).columns| ==>
      IndexOf(t.columns, Pruned(t).columns[a]).value < IndexOf(t.columns, Pruned(t).columns[b]).value
  {
    forall k | 0 <= k < |Pruned(t).columns| ensures Pruned(t).columns[k] in t.columns {
      PrunedPosition(t, k);
    }
    forall a, b | 0 <= a < b < |Pruned(t).columns|
      ensures IndexOf(t.columns, Pruned(t).columns[a]).value < IndexOf(t.columns, Pruned(t).columns[b]).value
    {
      PrunedPosition(t, a);
      PrunedPosition(t, b);
    }
  }

  /** Pruning keeps every row, and every surviving cell is what it was. */
  lemma PrunedKeepsCells(t: Table)
    requires WellFormed(t)
    ensures |Pruned(t).rows| == |t.rows|
    ensures forall i, c :: 0 <= i < |t.rows| && c in Pruned(t).columns ==>
      Cell(Pruned(t), i, c) == Cell(t, i, c)
  {
    var keep := KeptColumns(t.rows, |t.columns|);
    var p := Pruned(t);
    forall i, c | 0 <= i < |t.rows| && c in p.columns
      ensures Cell(p, i, c) == Cell(t, i, c)
    {
      var k :| 0 <= k < |p.columns| && p.columns[k] == c;
      PrunedPosition(t, k);
      assert p.rows[i][k] == t.rows[i][keep[k]];
    }
  }

  /** Column `k` of the pruned table holds what column `keep[k]` held. */
  lemma PrunedDistinct(t: Table, k: nat)
    requires WellFormed(t) && k < |Pruned(t).columns|
    ensures Distinct(Pruned(t).rows, k) == Distinct(t.rows, KeptColumns(t.rows, |t.columns|)[k])
  {
    var keep := KeptColumns(t.rows, |t.columns|);
    var p := Pruned(t);
    forall v | v in Distinct(p.rows, k) ensures v in Distinct(t.rows, keep[k]) {
      var i :| 0 <= i < |p.rows| && p.rows[i][k] != Null && p.rows[i][k] == v;
      assert t.rows[i][keep[k]] == v;
    }
    forall v | v in Distinct(t.rows, keep[k]) ensures v in Distinct(p.rows, k) {
      var i :| 0 <= i < |t.rows| && t.rows[i][keep[k]] != Null && t.rows[i][keep[k]] == v;
      assert p.rows[i][k] == v;
    }
  }

  // ---------------------------------------------------------------------
  // Duplicate-row removal

  /**
    The positions, in increasing order, among the first `n` rows, of the
    rows that do not repeat an earlier row.
   */
  function FirstOccurrences(rows: seq<Row>, n: nat): (idx: seq<nat>)
    requires n <= |rows|
    ensures Increasing(idx) && AllBelow(idx, n)
    ensures forall i :: 0 <= i < n ==> (i in idx <==> FirstOccurrence(rows, i))
  {
    if n == 0 then []
    else
      var before := FirstOccurrences(rows, n - 1);
      if !FirstOccurrence(rows, n - 1) then before
      else
        assert forall i :: 0 <= i < n - 1 ==> (i in before + [n - 1] <==> i in before);
        before + [n - 1]
  }

  /** Row `i` equals no earlier row. */
  predicate FirstOccurrence(rows: seq<Row>, i: nat)
    requires i < |rows|
  {
    rows[i] !in rows[..i]
  }

  /** The first `n` rows with repeats removed. */
  function DedupPrefix(rows: seq<Row>, n: nat): seq<Row>
    requires n <= |rows|
  {
    Pick(rows, FirstOccurrences(rows, n))
  }

  /** The rows with repeats removed: first occurrences, in original order. */
  function Dedup(rows: seq<Row>): seq<Row> {
    DedupPrefix(rows, |rows|)
  }

  lemma {:induction false} FirstOccurrencesCount(rows: seq<Row>, n: nat)
    requires n <= |rows|
    ensures |FirstOccurrences(rows, n)| <= n
  {
    if n > 0 {
      FirstOccurrencesCount(rows, n - 1);
    }
  }

  /** One more row: it is appended exactly when it repeats no earlier row. */
  lemma DedupPrefixSnoc(rows: seq<Row>, i: nat)
    requires i < |rows|
    ensures DedupPrefix(rows, i + 1) ==
      if FirstOccurrence(rows, i) then DedupPrefix(rows, i) + [rows[i]] else DedupPrefix(rows, i)
  {
    var idx := FirstOccurrences(rows, i);
    if FirstOccurrence(rows, i) {
      assert FirstOccurrences(rows, i + 1) == idx + [i];
      PickSnoc(rows, idx, i);
    } else {
      assert FirstOccurrences(rows, i + 1) == idx;
    }
  }

  /** The de-duplicated prefix holds the same rows as the prefix itself. */
  lemma {:induction false} DedupPrefixSameRows(rows: seq<Row>, n: nat)
    requires n <= |rows|
    ensures forall r :: r in DedupPrefix(rows, n) <==> r in rows[..n]
  {
    if n > 0 {
      DedupPrefixSameRows(rows, n - 1);
      DedupPrefixSnoc(rows, n - 1);
      assert rows[..n] == rows[..n - 1] + [rows[n - 1]];
    }
  }

  /** One step of removing repeated rows: a row is appended unless already kept. */
  lemma DedupStep(rows: seq<Row>, i: nat, kept: seq<Row>)
    requires i < |rows| && kept == DedupPrefix(rows, i)
    ensures DedupPrefix(rows, i + 1) == if rows[i] in kept then kept else kept + [rows[i]]
  {
    DedupPrefixSameRows(rows, i);
    DedupPrefixSnoc(rows, i);
  }

  /** Every input row is kept in some form, and nothing else appears. */
  lemma DedupSameRows(rows: seq<Row>)
    ensures forall r :: r in Dedup(rows) <==> r in rows
  {
    DedupPrefixSameRows(rows, |rows|);
    assert rows[..|rows|] == rows;
  }

  /** No two rows of the result are equal. */
  lemma DedupNoRepeats(rows: seq<Row>)
    ensures forall a, b :: 0 <= a < b < |Dedup(rows)| ==> Dedup(rows)[a] != Dedup(rows)[b]
  {
    var idx := FirstOccurrences(rows, |rows|);
    forall a, b | 0 <= a < b < |idx| ensures rows[idx[a]] != rows[idx[b]] {
      assert idx[b] in idx;
      assert rows[idx[a]] == rows[..idx[b]][idx[a]];
    }
  }

  /** Removing repeated rows keeps a table well formed. */
  lemma DedupWellFormed(t: Table)
    requires WellFormed(t)
    ensures WellFormed(Table(t.columns, Dedup(t.rows)))
  {
    var idx := FirstOccurrences(t.rows, |t.rows|);
    var d := Dedup(t.rows);
    forall k | 0 <= k < |d| ensures |d[k]| == |t.columns| {
      assert d[k] == t.rows[idx[k]];
    }
  }

  /** Removing repeated rows removes no distinct value from any column. */
  lemma DedupKeepsDistinct(rows: seq<Row>, j: nat)
    requires Wide(rows, j + 1)
    ensures Wide(Dedup(rows), j + 1)
    ensures Distinct(Dedup(rows), j) == Distinct(rows, j)
  {
    var idx := FirstOccurrences(rows, |rows|);
    var d := Dedup(rows);
    assert forall i :: 0 <= i < |d| ==> d[i] == rows[idx[i]];
    DedupSameRows(rows);
    forall v | v in Distinct(rows, j) ensures v in Distinct(d, j) {
      var k :| 0 <= k < |rows| && rows[k][j] != Null && rows[k][j] == v;
      assert rows[k] in d;
      var i :| 0 <= i < |d| && d[i] == rows[k];
      assert d[i][j] == v;
    }
  }

  /**
    `drop_duplicates` on a table. A table without columns or without rows
    counts as empty and is returned as it is, so a table whose columns
    were all pruned keeps all its (empty) rows. Otherwise the columns stay
    and the rows are the first occurrences.
   */
  function Deduplicated(t: Table): (d: Table)
    requires WellFormed(t)
    ensures WellFormed(d) && d.columns == t.columns && |d.rows| <= |t.rows|
    ensures forall r :: r in d.rows <==> r in t.rows
    ensures t.columns != [] ==> NoRepeatedRow(d)
  {
    if t.columns == [] || t.rows == [] then t
    else
      DedupWellFormed(t);
      FirstOccurrencesCount(t.rows, |t.rows|);
      DedupSameRows(t.rows);
      DedupNoRepeats(t.rows);
      Table(t.columns, Dedup(t.rows))
  }

  // ---------------------------------------------------------------------
  // Both cleaning steps

  /** The table after pruning constant columns and then removing repeated rows. */
  function Clean(t: Table): (c: Table)
    requires WellFormed(t)
    ensures WellFormed(c)
    ensures |c.columns| <= |t.columns| && |c.rows| <= |t.rows|
  {
    Deduplicated(Pruned(t))
  }

  predicate NoConstantColumn(t: Table)
    requires WellFormed(t)
  {
    forall k :: 0 <= k < |t.columns| ==> !IsConstant(t.rows, k)
  }

  /** No two rows are equal. */
  predicate NoRepeatedRow(t: Table) {
    forall a, b :: 0 <= a < b < |t.rows| ==> t.rows[a] != t.rows[b]
  }

  /**
    A cleaned table has no column with exactly one distinct non-null
    value, and unless every column was pruned, no two equal rows.
   */
  lemma CleanInvariant(t: Table)
    requires WellFormed(t)
    ensures NoConstantColumn(Clean(t))
    ensures Clean(t).columns != [] ==> NoRepeatedRow(Clean(t))
  {
    var p := Pruned(t);
    var keep := KeptColumns(t.rows, |t.columns|);
    forall k | 0 <= k < |p.columns| ensures !IsConstant(Clean(t).rows, k) {
      DedupKeepsDistinct(p.rows, k);
      PrunedDistinct(t, k);
      assert keep[k] in keep;
    }
  }

  /**
    When every column is pruned, the table is empty and `drop_duplicates`
    leaves it as it is: every row stays, now without cells.
   */
  lemma AllColumnsPrunedKeepsRows(t: Table)
    requires WellFormed(t)
    requires forall j :: 0 <= j < |t.columns| ==> IsConstant(t.rows, j)
    ensures Clean(t).columns == [] && |Clean(t).rows| == |t.rows|
  {
    KeptNoColumns(t.rows, |t.columns|);
  }

  lemma {:induction false} KeptNoColumns(rows: seq<Row>, n: nat)
    requires Wide(rows, n)
    requires forall k :: 0 <= k < n ==> IsConstant(rows, k)
    ensures KeptColumns(rows, n) == []
  {
    if n > 0 {
      KeptNoColumns(rows, n - 1);
    }
  }

  lemma {:induction false} KeptAllColumns(rows: seq<Row>, n: nat)
    requires Wide(rows, n)
    requires forall k :: 0 <= k < n ==> !IsConstant(rows, k)
    ensures KeptColumns(rows, n) == Upto(n)
  {
    if n > 0 {
      KeptAllColumns(rows, n - 1);
    }
  }

  lemma {:induction false} FirstOccurrencesOfDistinctRows(rows: seq<Row>, n: nat)
    requires n <= |rows| && forall a, b :: 0 <= a < b < |rows| ==> rows[a] != rows[b]
    ensures FirstOccurrences(rows, n) == Upto(n)
  {
    if n > 0 {
      FirstOccurrencesOfDistinctRows(rows, n - 1);
      assert rows[n - 1] !in rows[..n - 1];
    }
  }

  /** Cleaning a cleaned table changes nothing. */
  lemma CleanIdempotent(t: Table)
    requires WellFormed(t)
    ensures Clean(Clean(t)) == Clean(t)
  {
    var c := Clean(t);
    CleanInvariant(t);
    KeptAllColumns(c.rows, |c.columns|);
    PickAll(c.columns);
    var p := Pruned(c);
    forall i | 0 <= i < |c.rows| ensures p.rows[i] == c.rows[i] {
      assert c.rows[i] in c.rows;
      PickAll(c.rows[i]);
    }
    assert p == c;
    if c.columns != [] {
      FirstOccurrencesOfDistinctRows(c.rows, |c.rows|);
      PickAll(c.rows);
    }
  }

  // ---------------------------------------------------------------------
  // Parsing `Order Date`

  /**
    One cell through the date parser: a missing value stays missing (NaT),
    any other cell becomes the date the parser reads from it, and a cell
    the parser rejects raises.
   */
  function ParseCell(v: Value, parse: Value -> Option<Date>): (r: Result<Value>)
    ensures v == Null ==> r == Ok(Null)
    ensures v != Null && r.Ok? ==> r.value.Stamp? && parse(v) == Some(r.value.date)
    ensures r.Raise? <==> v != Null && parse(v).None?
    ensures r.Raise? ==> r.error == DateParseError(v)
  {
    if v == Null then Ok(Null)
    else match parse(v)
      case Some(d) => Ok(Stamp(d))
      case None => Raise(DateParseError(v))
  }

  /**
    The rows with column `j` parsed; the first cell that does not parse
    raises, and then nothing is replaced.
   */
  function ParseColumn(rows: seq<Row>, j: nat, parse: Value -> Option<Date>): (r: Result<seq<Row>>)
    requires Wide(rows, j + 1)
    ensures r.Ok? <==> forall i :: 0 <= i < |rows| ==> ParseCell(rows[i][j], parse).Ok?
    ensures r.Ok? ==> |r.value| == |rows|
    ensures r.Ok? ==> forall i :: 0 <= i < |rows| ==>
      r.value[i] == rows[i][j := ParseCell(rows[i][j], parse).value]
    ensures r.Raise? ==> r.error.DateParseError?
  {
    if rows == [] then Ok([])
    else
      var last := rows[|rows| - 1];
      match ParseColumn(rows[..|rows| - 1], j, parse)
      case Raise(e) => Raise(e)
      case Ok(done) =>
        match ParseCell(last[j], parse)
        case Raise(e) => Raise(e)
        case Ok(v) => Ok(done + [last[j := v]])
  }

  /** Once a prefix of the rows fails to parse, so do all the rows, with the same error. */
  lemma {:induction false} ParseColumnFailsEarly(rows: seq<Row>, n: nat, j: nat, parse: Value -> Option<Date>)
    requires n <= |rows| && Wide(rows, j + 1)
    requires ParseColumn(rows[..n], j, parse).Raise?
    ensures ParseColumn(rows, j, parse) == ParseColumn(rows[..n], j, parse)
  {
    if n < |rows| {
      var front := rows[..|rows| - 1];
      assert front[..n] == rows[..n];
      ParseColumnFailsEarly(front, n, j, parse);
    } else {
      assert rows[..n] == rows;
    }
  }

  /** `data['Order Date'] = pd.to_datetime(data['Order Date'])` on a table value. */
  function WithParsedDates(t: Table, parse: Value -> Option<Date>): (r: Result<Table>)
    requires WellFormed(t)
    ensures r.Ok? ==> WellFormed(r.value) && r.value.columns == t.columns && |r.value.rows| == |t.rows|
    ensures r.Raise? ==> r.error == KeyError(OrderDate) || r.error.DateParseError?
  {
    match IndexOf(t.columns, OrderDate)
    case None => Raise(KeyError(OrderDate))
    case Some(j) =>
      match ParseColumn(t.rows, j, parse)
      case Raise(e) => Raise(e)
      case Ok(rows) =>
        Ok(Table(t.columns, rows))
  }

  /**
    Date conversion fails with a KeyError exactly when there is no
    `Order Date` column, and otherwise succeeds exactly when every
    non-null date cell parses. On success the columns and the number of
    rows are unchanged, every other column is untouched, and each date
    cell holds its parsed date or stays missing.
   */
  lemma WithParsedDatesSpec(t: Table, parse: Value -> Option<Date>)
    requires WellFormed(t)
    ensures WithParsedDates(t, parse) == Raise(KeyError(OrderDate)) <==> OrderDate !in t.columns
    ensures OrderDate in t.columns ==>
      (WithParsedDates(t, parse).Ok? <==>
        forall i :: 0 <= i < |t.rows| ==> ParseCell(Cell(t, i, OrderDate).value, parse).Ok?)
    ensures WithParsedDates(t, parse).Ok? ==>
      var u := WithParsedDates(t, parse).value;
      && u.columns == t.columns && |u.rows| == |t.rows|
      && (forall i, c :: 0 <= i < |t.rows| && c != OrderDate ==> Cell(u, i, c) == Cell(t, i, c))
      && (forall i :: 0 <= i < |t.rows| ==>
            Cell(u, i, OrderDate) == Some(ParseCell(Cell(t, i, OrderDate).value, parse).value))
  {
    match IndexOf(t.columns, OrderDate)
    case None =>
    case Some(j) =>
      assert forall i :: 0 <= i < |t.rows| ==> Cell(t, i, OrderDate) == Some(t.rows[i][j]);
      var r := ParseColumn(t.rows, j, parse);
      if r.Raise? {
        assert r.error != KeyError(OrderDate);
      }
  }

  // ---------------------------------------------------------------------
  // The table that `load_and_preprocess_data` changes in place

  class Frame {
    var columns: seq<string>
    var rows: seq<Row>

    function Model(): Table
      reads this
    {
      Table(columns, rows)
    }

    ghost predicate Valid()
      reads this
    {
      WellFormed(Model())
    }

    constructor (t: Table)
      requires WellFormed(t)
      ensures Valid() && Model() == t
    {
      columns, rows := t.columns, t.rows;
    }

    /** `data.drop(columns=[constant columns], inplace=True)`. */
    method DropConstantColumns()
      requires Valid()
      modifies this
      ensures Valid() && Model() == Pruned(old(Model()))
    {
      var keep := NonConstantColumns(rows, |columns|);
      var pruned := ProjectRows(rows, keep);
      columns, rows := Pick(columns, keep), pruned;
    }

    /**
      `data.drop_duplicates(inplace=True)`; an empty frame (no columns or
      no rows) is left as it is.
     */
    method DropDuplicates()
      requires Valid()
      modifies this
      ensures Valid() && Model() == Deduplicated(old(Model()))
    {
      if |columns| == 0 || |rows| == 0 {
        return;
      }
      var kept := FirstOccurrenceRows(rows);
      DedupWellFormed(Model());
      rows := kept;
    }

    /**
      `data['Order Date'] = pd.to_datetime(data['Order Date'])`: on an
      exception nothing is changed.
     */
    method ConvertOrderDate(parse: Value -> Option<Date>) returns (err: Option<Error>)
      requires Valid()
      modifies this
      ensures Valid()
      ensures match WithParsedDates(old(Model()), parse)
        case Ok(t) => err == None && Model() == t
        case Raise(e) => err == Some(e) && Model() == old(Model())
    {
      var found := IndexOf(columns, OrderDate);
      if found.None? {
        return Some(KeyError(OrderDate));
      }
      var parsed := ParseDateColumn(rows, found.value, parse);
      match parsed
      case Raise(e) =>
        err := Some(e);
      case Ok(newRows) =>
        rows, err := newRows, None;
    }
  }

  // ---------------------------------------------------------------------
  // The loops behind the in-place steps

  /** The positions of the non-constant columns among the first `n` (`unique_col`'s complement). */
  method NonConstantColumns(rows: seq<Row>, n: nat) returns (keep: seq<nat>)
    requires Wide(rows, n)
    ensures keep == KeptColumns(rows, n)
  {
    keep := [];
    var j := 0;
    while j < n
      invariant 0 <= j <= n
      invariant keep == KeptColumns(rows, j)
    {
      if !IsConstant(rows, j) {
        keep := keep + [j];
      }
      j := j + 1;
    }
  }

  /** Every row restricted to the columns at positions `keep`. */
  method ProjectRows(rows: seq<Row>, keep: seq<nat>) returns (out: seq<Row>)
    requires forall i :: 0 <= i < |rows| ==> AllBelow(keep, |rows[i]|)
    ensures out == PickEach(rows, keep)
  {
    out := [];
    var i := 0;
    while i < |rows|
      invariant 0 <= i <= |rows|
      invariant |out| == i
      invariant forall k :: 0 <= k < i ==> out[k] == Pick(rows[k], keep)
    {
      out := out + [Pick(rows[i], keep)];
      i := i + 1;
    }
  }

  /** The first occurrence of every row, in order. */
  method FirstOccurrenceRows(rows: seq<Row>) returns (kept: seq<Row>)
    ensures kept == Dedup(rows)
  {
    kept := [];
    var i := 0;
    while i < |rows|
      invariant 0 <= i <= |rows|
      invariant kept == DedupPrefix(rows, i)
    {
      DedupStep(rows, i, kept);
      if rows[i] !in kept {
        kept := kept + [rows[i]];
      }
      i := i + 1;
    }
  }

  /** Column `j` of every row through the date parser; stops at the first failure. */
  method ParseDateColumn(rows: seq<Row>, j: nat, parse: Value -> Option<Date>) returns (r: Result<seq<Row>>)
    requires Wide(rows, j + 1)
    ensures r == ParseColumn(rows, j, parse)
  {
    var parsed: seq<Row> := [];
    var i := 0;
    while i < |rows|
      invariant 0 <= i <= |rows|
      invariant ParseColumn(rows[..i], j, parse) == Ok(parsed)
    {
      assert rows[..i + 1][..i] == rows[..i];
      var cell := ParseCell(rows[i][j], parse);
      if cell.Raise? {
        ParseColumnFailsEarly(rows, i + 1, j, parse);
        return Raise(cell.error);
      }
      parsed := parsed + [rows[i][j := cell.value]];
      i := i + 1;
    }
    assert rows[..i] == rows;
    r := Ok(parsed);
  }
}
