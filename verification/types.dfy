/** The shapes of the data that flow through the merge-and-ratio pipeline. */
module Types {

  /** Calendar dates, already parsed from their ISO text and ordered chronologically. */
  type Date = int

  type Ticker = string

  type Field = string

  /** A field value of a statement record as the ratio engine sees it: a number
      (a numeric string or a float), the literal string "None", or anything
      `float()` refuses (a non-numeric string, `null`, a list, ...). An absent
      field is the absence of its key in the record. */
  datatype Value = Num(amount: real) | NoneString | Unparseable

  /** One ticker's fields on one date. */
  type Record = map<Field, Value>

  /** The concatenated table: date, then ticker, then that ticker's record. */
  type Table = map<Date, map<Ticker, Record>>

  /** The field the concatenation injects and the ratio engine reads back. */
  const AdjCloseKey: Field := "Adj Close"
}
