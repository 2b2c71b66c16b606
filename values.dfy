/**
  Cell values, the exceptions the pipeline can raise, and column lookup
  by name.
 */
module Values {
  import opened Calendar

  /**
    One cell of the sales table. `Null` is a missing value (NaN / NaT);
    `Num` is a numeric cell (money as an integer number of cents);
    `Text` is any other text read from the file; `Stamp` is a parsed date.
   */
  datatype Value = Null | Num(n: int) | Text(s: string) | Stamp(date: Date)

  datatype Option<T> = None | Some(value: T)

  /** The exceptions that leave the modelled functions. */
  datatype Error =
    | KeyError(key: string)        // a column looked up by name is missing
    | DateParseError(cell: Value)  // a non-null `Order Date` cell does not parse
    | SalesTypeError(cell: Value)  // a non-numeric `Sales` cell cannot be summed
    | TypeError(message: string)   // a decomposition input of the wrong kind
    | IndexError                   // first column of a table that has none
    | ValueError                   // a month range from a date column holding only NaT

  datatype Result<T> = Ok(value: T) | Raise(error: Error)

  /** Position of the first column called `name`, if any. */
  function IndexOf(names: seq<string>, name: string): (r: Option<nat>)
    ensures r.None? <==> name !in names
    ensures r.Some? ==> r.value < |names| && names[r.value] == name && name !in names[..r.value]
  {
    if |names| == 0 then None
    else if names[0] == name then Some(0)
    else match IndexOf(names[1..], name)
      case None => None
      case Some(i) => Some(i + 1)
  }
}
