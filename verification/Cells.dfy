/** Spreadsheet cells as the audit code sees them. */
module Cells {
  import opened Options

  /**
    A cell: Python's `None`, or a value through the two views the code takes of it,
    `text` for `str(value)` and `number` for `_to_float(value)`.
  */
  datatype Cell = Empty | Filled(text: string, number: Option<real>) {
    /** `str(value)` */
    function Text(): string {
      if Empty? then "None" else text
    }

    /** `_to_float(value)` */
    function Number(): Option<real> {
      if Empty? then None else number
    }
  }

  /** A row of a parsed sheet: column name to cell; a missing column is a missing key. */
  type Row = map<string, Cell>

  /** `row.get(column)` */
  function Get(row: Row, column: string): Cell {
    if column in row then row[column] else Empty
  }

  /** `str(row.get(column, ""))`: unlike `Get`, a missing column reads as the empty string. */
  function Key(row: Row, column: string): string {
    if column in row then row[column].Text() else ""
  }

  /** A missing column gives no key, but an empty cell that is there gives the key `None`. */
  lemma KeyExactly(row: Row, column: string)
    ensures Key(row, column) == "" <==> column !in row || (row[column].Filled? && row[column].text == "")
    ensures column in row && row[column].Empty? ==> Key(row, column) == "None"
    ensures column in row && row[column].Filled? ==> Key(row, column) == row[column].text
  {
  }

  /** `abs` */
  function Abs(x: real): (r: real)
    ensures r >= 0.0 && (r == x || r == -x)
  {
    if x < 0.0 then -x else x
  }

  lemma AbsWithin(x: real, y: real, t: real)
    ensures Abs(x - y) <= t <==> -t <= x - y <= t
  {
  }
}
