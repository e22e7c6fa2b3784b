/**
 * The boundary to the graph-store driver: what one statement execution hands
 * back. A result row maps dotted column labels ("t.id") to the primitive values
 * the store's JSON transport carries; `row.get::<T>(column)` deserialises one
 * such value into the Rust type the caller asks for.
 */
module Cypher {

  datatype Option<+T> = None | Some(value: T)

  /** A value the store can put in a result column. */
  datatype Value = VStr(s: string) | VInt(i: int) | VBool(b: bool) | VNull

  /** One result row: column label to value. */
  type Row = map<string, Value>

  /** A driver failure (syntax error, constraint violation, lost connection), kept as its message. */
  datatype DriverError = DriverError(message: string)

  /** What `GraphClient::exec` returns: an error, or the result rows in store order. */
  datatype ExecResult = DriverErr(err: DriverError) | Rows(rows: seq<Row>)

  /** The values of Rust's `i32`. */
  type Int32 = x: int | -0x8000_0000 <= x < 0x8000_0000

  /** The value in `column`, if the row has that column. */
  function Lookup(row: Row, column: string): Option<Value>
  {
    if column in row then Some(row[column]) else None
  }

  /** `row.get::<String>(column)`: only a string value deserialises. */
  function GetString(row: Row, column: string): (r: Option<string>)
    ensures r.Some? <==> column in row && row[column].VStr?
    ensures r.Some? ==> Lookup(row, column) == Some(VStr(r.value))
  {
    match Lookup(row, column)
    case Some(VStr(s)) => Some(s)
    case _ => None
  }

  /** `row.get::<bool>(column)`: only a boolean value deserialises. */
  function GetBool(row: Row, column: string): (r: Option<bool>)
    ensures r.Some? <==> column in row && row[column].VBool?
    ensures r.Some? ==> Lookup(row, column) == Some(VBool(r.value))
  {
    match Lookup(row, column)
    case Some(VBool(b)) => Some(b)
    case _ => None
  }

  /** `row.get::<i32>(column)`: an integer deserialises only when it fits in 32 bits. */
  function GetInt32(row: Row, column: string): (r: Option<Int32>)
    ensures r.Some? <==> column in row && row[column].VInt? && -0x8000_0000 <= row[column].i < 0x8000_0000
    ensures r.Some? ==> Lookup(row, column) == Some(VInt(r.value))
  {
    match Lookup(row, column)
    case Some(VInt(n)) => if -0x8000_0000 <= n < 0x8000_0000 then Some(n) else None
    case _ => None
  }

  /** Column labels as a RETURN clause lists them: "a, b, c". */
  function JoinColumns(columns: seq<string>): string
  {
    if |columns| == 0 then ""
    else if |columns| == 1 then columns[0]
    else columns[0] + ", " + JoinColumns(columns[1..])
  }

  /** The statement ends with a RETURN clause listing exactly `columns`, in that order. */
  predicate Returns(statement: string, columns: seq<string>)
  {
    var clause := " RETURN " + JoinColumns(columns);
    |clause| <= |statement| && statement[|statement| - |clause|..] == clause
  }
}
