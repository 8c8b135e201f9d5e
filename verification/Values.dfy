/** Column values, row changes and transactions (internal/binlog/transaction.go, schema_fetcher.go). */
module Values {
  import opened Base

  type Digits = s: string | forall i :: 0 <= i < |s| ==> '0' <= s[i] <= '9' witness ""

  // A UTC instant, broken into the fields the generator prints.
  datatype Instant = Instant(year: nat, month: nat, day: nat, hour: nat, minute: nat, second: nat, nanos: nat) {
    predicate Valid() {
      year < 10000 && month < 100 && day < 100 && hour < 100 && minute < 100 && second < 100 && nanos < 1_000_000_000
    }
  }

  type Timestamp = t: Instant | t.Valid() witness Instant(0, 0, 0, 0, 0, 0, 0)

  // A decoded column value. Decimal stands for both binary floats and decimals, given by
  // the digits their shortest plain rendering has. Other is any further dynamic type,
  // given by its default rendering.
  datatype Value =
    | Null
    | Int(n: int)
    | Decimal(neg: bool, whole: nat, frac: Digits)
    | Time(t: Timestamp)
    | Bytes(bytes: seq<Byte>)
    | Text(s: string)
    | Bool(b: bool)
    | Other(text: string)

  type Image = seq<Value>

  datatype Action = Insert | Update | Delete | Unknown(code: int)

  datatype RowChange = RowChange(
    schema: string, table: string, action: Action,
    before: Image, after: Image, columnNames: seq<string>)

  datatype Transaction = Transaction(
    txId: string, gtid: string, xid: nat, commitTime: int, schema: string,
    statements: seq<RowChange>, truncated: bool)

  function Rows(tx: Transaction): seq<RowChange> {
    tx.statements
  }

  datatype TableSchema = TableSchema(columns: seq<string>, primaryKey: seq<string>)

  function DottedKey(schema: string, table: string): string {
    schema + "." + table
  }
}
