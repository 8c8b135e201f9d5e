/** The reverse generator (internal/reverse/generator.go): row changes to undo SQL text. */
module Generator {
  import opened Base
  import opened Values
  import opened SqlLexis
  import opened SqlText

  const DEFAULT_MAX_STATEMENT_SIZE: nat := 16 * 1024

  datatype Warning =
    | SchemaNotFound(key: string)
    | NoColumnNames(key: string)
    | BeforeMismatch(have: nat, want: nat)
    | AfterMismatch(have: nat, want: nat)
    | KeyColumnNotFound(col: string)
    | KeyColumnNoValue(col: string)
    | UnknownAction(code: int)
    | TooLong(max: int)
    | TransactionTruncated
    | GenerateFailed

  datatype Statement = Statement(sql: string, txId: string, txOrder: int, warnings: seq<Warning>)

  datatype GenerateError = MissingTxId

  // ---------- the parts of one statement ----------

  // values[i], or NULL where the image is shorter than the column list.
  function At(values: Image, i: nat): Value {
    if i < |values| then values[i] else Null
  }

  function TermText(t: (string, Value)): string {
    QuoteIdent(t.0) + (if t.1.Null? then " IS NULL" else " = " + FormatValue(t.1))
  }

  function AssignText(t: (string, Value)): string {
    QuoteIdent(t.0) + " = " + FormatValue(t.1)
  }

  // The chosen columns paired with their values.
  function Pick(cols: seq<string>, idxs: seq<nat>, values: Image): (ts: seq<(string, Value)>)
    requires forall k :: 0 <= k < |idxs| ==> idxs[k] < |cols|
  {
    seq(|idxs|, k requires 0 <= k < |idxs| => (cols[idxs[k]], At(values, idxs[k])))
  }

  function Positions(n: nat): (r: seq<nat>)
    ensures |r| == n && forall k :: 0 <= k < n ==> r[k] == k
  {
    seq(n, k => k)
  }

  function ResolvedPK(cols: seq<string>, pk: seq<string>): (r: (seq<nat>, seq<Warning>))
    ensures forall k :: 0 <= k < |r.0| ==> r.0[k] < |cols|
  {
    if pk == [] then ([], []) else
    var (idxs, warns) := ResolvedPK(cols, pk[..|pk| - 1]);
    match IndexOf(cols, pk[|pk| - 1])
    case Some(i) => (idxs + [i], warns)
    case None => (idxs, warns + [KeyColumnNotFound(pk[|pk| - 1])])
  }

  // The key positions that carry a value, with a warning for each that does not.
  function Usable(cols: seq<string>, idxs: seq<nat>, image: Image): (r: (seq<nat>, seq<Warning>))
    requires forall k :: 0 <= k < |idxs| ==> idxs[k] < |cols|
    ensures forall k :: 0 <= k < |r.0| ==> r.0[k] < |cols|
  {
    if idxs == [] then ([], []) else
    var i := idxs[|idxs| - 1];
    var (us, warns) := Usable(cols, idxs[..|idxs| - 1], image);
    if At(image, i).Null? then (us, warns + [KeyColumnNoValue(cols[i])]) else (us + [i], warns)
  }

  // Which columns the WHERE clause tests: the usable key columns, or all columns if there are none.
  function WhereColumns(after: Image, cols: seq<string>, pk: seq<string>): (r: (seq<nat>, seq<Warning>))
    ensures forall k :: 0 <= k < |r.0| ==> r.0[k] < |cols|
    ensures cols != [] ==> r.0 != []
  {
    var (idxs, w1) := ResolvedPK(cols, pk);
    var (us, w2) := Usable(cols, idxs, after);
    (if us != [] then us else Positions(|cols|), w1 + w2)
  }

  function WhereText(after: Image, cols: seq<string>, pk: seq<string>): string {
    Join(Map(TermText, Pick(cols, WhereColumns(after, cols, pk).0, after)), " AND ")
  }

  function TableText(rc: RowChange): string {
    QuoteIdent(rc.schema) + "." + QuoteIdent(rc.table)
  }

  function LengthWarning(rc: RowChange, cols: seq<string>, before: bool): seq<Warning> {
    if before then if |rc.before| != |cols| then [BeforeMismatch(|rc.before|, |cols|)] else []
    else if |rc.after| != |cols| then [AfterMismatch(|rc.after|, |cols|)] else []
  }

  function InsertText(rc: RowChange, cols: seq<string>): string {
    "INSERT INTO " + TableText(rc) + " (" + Join(Map(QuoteIdent, cols), ", ") + ") VALUES ("
    + Join(Map(FormatValue, rc.before), ", ") + ")"
  }

  function DeleteText(rc: RowChange, cols: seq<string>, pk: seq<string>): string {
    "DELETE FROM " + TableText(rc) + " WHERE " + WhereText(rc.after, cols, pk)
  }

  function UpdateText(rc: RowChange, cols: seq<string>, pk: seq<string>): string {
    "UPDATE " + TableText(rc) + " SET " + Join(Map(AssignText, Pick(cols, Positions(|cols|), rc.before)), ", ")
    + " WHERE " + WhereText(rc.after, cols, pk)
  }

  function BuildReverseSQL(rc: RowChange, cols: seq<string>, pk: seq<string>): (string, seq<Warning>) {
    var warns := WhereColumns(rc.after, cols, pk).1;
    match rc.action
    case Delete => (InsertText(rc, cols), LengthWarning(rc, cols, true))
    case Insert => (DeleteText(rc, cols, pk), LengthWarning(rc, cols, false) + warns)
    case Update => (UpdateText(rc, cols, pk), LengthWarning(rc, cols, true) + LengthWarning(rc, cols, false) + warns)
    case Unknown(code) => ("", [UnknownAction(code)])
  }

  function ColumnNames(rc: RowChange, sch: TableSchema): seq<string> {
    if |rc.columnNames| > 0 then rc.columnNames else sch.columns
  }

  function UndoStatement(rc: RowChange, txId: string, order: int, schema: map<string, TableSchema>, max: int): Statement {
    var key := DottedKey(rc.schema, rc.table);
    if key !in schema then Statement("", txId, order, [SchemaNotFound(key)])
    else
      var cols := ColumnNames(rc, schema[key]);
      if cols == [] then Statement("", txId, order, [NoColumnNames(key)])
      else
        var (sql, warns) := BuildReverseSQL(rc, cols, schema[key].primaryKey);
        if sql == "" then Statement("", txId, order, warns)
        else if |sql| > max then Statement("", txId, order, [TooLong(max)])
        else Statement(sql, txId, order, warns)
  }

  // The undo of the row changes from position i on, last change first, in a transaction of n changes.
  function UndoFrom(rows: seq<RowChange>, i: nat, txId: string, schema: map<string, TableSchema>, max: int): (out: seq<Statement>)
    requires i <= |rows|
    ensures |out| == |rows| - i
    decreases |rows| - i
  {
    if i == |rows| then []
    else UndoFrom(rows, i + 1, txId, schema, max) + [UndoStatement(rows[i], txId, |rows| - 1 - i, schema, max)]
  }

  // An unset size limit (0) means the default.
  function Limit(max: int): int {
    if max == 0 then DEFAULT_MAX_STATEMENT_SIZE else max
  }

  function UndoPlan(tx: Transaction, schema: map<string, TableSchema>, max: int): (out: seq<Statement>)
    ensures |out| == |tx.statements|
  {
    UndoFrom(tx.statements, 0, tx.txId, schema, Limit(max))
  }

  // ---------- the loops ----------

  method ResolvePKIndices(cols: seq<string>, pk: seq<string>) returns (idxs: seq<nat>, warns: seq<Warning>)
    ensures (idxs, warns) == ResolvedPK(cols, pk)
  {
    idxs, warns := [], [];
    for k := 0 to |pk|
      invariant (idxs, warns) == ResolvedPK(cols, pk[..k])
    {
      assert pk[..k + 1][..k] == pk[..k];
      match IndexOf(cols, pk[k]) {
        case Some(i) => idxs := idxs + [i];
        case None => warns := warns + [KeyColumnNotFound(pk[k])];
      }
    }
    assert pk[..|pk|] == pk;
  }

  method BuildWhere(rc: RowChange, cols: seq<string>, pk: seq<string>) returns (where: string, warns: seq<Warning>)
    ensures where == WhereText(rc.after, cols, pk)
    ensures warns == WhereColumns(rc.after, cols, pk).1
  {
    warns := [];
    if |pk| > 0 {
      var idxs, w := ResolvePKIndices(cols, pk);
      warns := warns + w;
      var usable: seq<nat> := [];
      for k := 0 to |idxs|
        invariant usable == Usable(cols, idxs[..k], rc.after).0
        invariant warns == w + Usable(cols, idxs[..k], rc.after).1
      {
        assert idxs[..k + 1][..k] == idxs[..k];
        var i := idxs[k];
        if i >= |rc.after| || rc.after[i].Null? {
          warns := warns + [KeyColumnNoValue(cols[i])];
        } else {
          usable := usable + [i];
        }
      }
      assert idxs[..|idxs|] == idxs;
      if |usable| > 0 {
        where := Join(Map(TermText, Pick(cols, usable, rc.after)), " AND ");
        return;
      }
    }
    where := Join(Map(TermText, Pick(cols, Positions(|cols|), rc.after)), " AND ");
  }

  method Generate(tx: Transaction, schema: map<string, TableSchema>, maxStatementSize: int)
    returns (r: Result<seq<Statement>, GenerateError>)
    ensures tx.txId == "" ==> r == Err(MissingTxId)
    ensures tx.txId != "" ==> r == Ok(UndoPlan(tx, schema, maxStatementSize))
  {
    if tx.txId == "" {
      return Err(MissingTxId);
    }
    var max := maxStatementSize;
    if max == 0 {
      max := DEFAULT_MAX_STATEMENT_SIZE;
    }
    var out: seq<Statement> := [];
    var n := |tx.statements|;
    var i := n;
    while i > 0
      invariant 0 <= i <= n
      invariant out == UndoFrom(tx.statements, i, tx.txId, schema, max)
    {
      i := i - 1;
      var rc := tx.statements[i];
      var order := n - 1 - i;
      var key := DottedKey(rc.schema, rc.table);
      if key !in schema {
        out := out + [Statement("", tx.txId, order, [SchemaNotFound(key)])];
        continue;
      }
      var cols := ColumnNames(rc, schema[key]);
      if |cols| == 0 {
        out := out + [Statement("", tx.txId, order, [NoColumnNames(key)])];
        continue;
      }
      var (sql, warn) := BuildReverseSQL(rc, cols, schema[key].primaryKey);
      if sql == "" {
        out := out + [Statement("", tx.txId, order, warn)];
        continue;
      }
      if |sql| > max {
        out := out + [Statement("", tx.txId, order, [TooLong(max)])];
        continue;
      }
      out := out + [Statement(sql, tx.txId, order, warn)];
    }
    return Ok(out);
  }

  // ---------- what one row change is meant to be undone by ----------

  function TermMeaning(t: (string, Value)): Condition {
    if t.1.Null? then IsNull(t.0) else Equals(t.0, Denote(t.1))
  }

  function AssignMeaning(t: (string, Value)): (string, Literal) {
    (t.0, Denote(t.1))
  }

  function IntendedWhere(after: Image, cols: seq<string>, pk: seq<string>): seq<Condition> {
    Map(TermMeaning, Pick(cols, WhereColumns(after, cols, pk).0, after))
  }

  // The statement each row change calls for, as data.
  function Intended(rc: RowChange, cols: seq<string>, pk: seq<string>): Sql
    requires !rc.action.Unknown?
  {
    match rc.action
    case Delete => InsertRow(rc.schema, rc.table, cols, Map(Denote, rc.before))
    case Insert => DeleteRows(rc.schema, rc.table, IntendedWhere(rc.after, cols, pk))
    case Update =>
      UpdateRows(rc.schema, rc.table, Map(AssignMeaning, Pick(cols, Positions(|cols|), rc.before)),
        IntendedWhere(rc.after, cols, pk))
  }

  predicate PrintableImages(rc: RowChange) {
    (forall i :: 0 <= i < |rc.before| ==> Printable(rc.before[i])) &&
    (forall i :: 0 <= i < |rc.after| ==> Printable(rc.after[i]))
  }

  // ---------- the text says exactly that ----------

  lemma NullTermRoundTrip(c: string, r: string)
    ensures ReadCondition(QuoteIdent(c) + (" IS NULL" + r)) == Some((IsNull(c), r))
  {
    IdentRoundTrip(c, " IS NULL" + r);
    assert (" IS NULL" + r)[8..] == r;
  }

  lemma EqualTermReads(c: string, text: string, l: Literal, r: string)
    requires ReadLiteral(text) == Some((l, r))
    ensures ReadCondition(QuoteIdent(c) + (" = " + text)) == Some((Equals(c, l), r))
  {
    var more := " = " + text;
    IdentRoundTrip(c, more);
    assert more[3..] == text;
    assert more[1] == '=';
  }

  lemma TermRoundTrip(t: (string, Value), r: string)
    requires Printable(t.1)
    requires Follows(r)
    ensures ReadCondition(TermText(t) + r) == Some((TermMeaning(t), r))
  {
    if t.1.Null? {
      NullTermRoundTrip(t.0, r);
      Assoc(QuoteIdent(t.0), " IS NULL", r);
    } else {
      ValueRoundTrip(t.1, r);
      EqualTermReads(t.0, FormatValue(t.1) + r, Denote(t.1), r);
      Assoc(QuoteIdent(t.0), " = " + FormatValue(t.1), r);
      Assoc(" = ", FormatValue(t.1), r);
    }
  }

  lemma AssignRoundTrip(t: (string, Value), r: string)
    requires Printable(t.1)
    requires Follows(r)
    ensures ReadAssignment(AssignText(t) + r) == Some((AssignMeaning(t), r))
  {
    var more := " = " + FormatValue(t.1) + r;
    assert AssignText(t) + r == QuoteIdent(t.0) + more;
    IdentRoundTrip(t.0, more);
    assert more[3..] == FormatValue(t.1) + r;
    ValueRoundTrip(t.1, r);
  }

  lemma PickPrintable(cols: seq<string>, idxs: seq<nat>, values: Image)
    requires forall k :: 0 <= k < |idxs| ==> idxs[k] < |cols|
    requires forall i :: 0 <= i < |values| ==> Printable(values[i])
    ensures forall t :: t in Pick(cols, idxs, values) ==> Printable(t.1)
  {
  }

  lemma WhereRoundTrip(after: Image, cols: seq<string>, pk: seq<string>)
    requires cols != []
    requires forall i :: 0 <= i < |after| ==> Printable(after[i])
    ensures ReadWhere(" WHERE " + WhereText(after, cols, pk)) == Some(IntendedWhere(after, cols, pk))
  {
    var ts := Pick(cols, WhereColumns(after, cols, pk).0, after);
    PickPrintable(cols, WhereColumns(after, cols, pk).0, after);
    forall t, r | t in ts && (" AND " <= r || r == "") ensures ReadCondition(TermText(t) + r) == Some((TermMeaning(t), r)) {
      TermRoundTrip(t, r);
    }
    ListRoundTrip(ReadCondition, TermText, TermMeaning, " AND ", ts, "");
    assert WhereText(after, cols, pk) + "" == WhereText(after, cols, pk);
    Consume(" WHERE ", WhereText(after, cols, pk));
  }

  lemma InsertBody(rc: RowChange, cols: seq<string>)
    requires cols != []
    requires forall i :: 0 <= i < |rc.before| ==> Printable(rc.before[i])
    ensures var names, values := Join(Map(QuoteIdent, cols), ", "), Join(Map(FormatValue, rc.before), ", ");
      ReadInsert(TableText(rc) + (" (" + (names + (") VALUES (" + (values + ")")))))
      == Some(InsertRow(rc.schema, rc.table, cols, Map(Denote, rc.before)))
  {
    var names, values := Join(Map(QuoteIdent, cols), ", "), Join(Map(FormatValue, rc.before), ", ");
    var r3 := values + ")";
    var r2 := ") VALUES (" + r3;
    var r1 := names + r2;
    TableNameRoundTrip(rc.schema, rc.table, " (" + r1);
    Consume(" (", r1);
    NamesRoundTrip(cols, r2);
    Consume(") VALUES (", r3);
    ValuesRoundTrip(rc.before);
  }

  lemma NamesRoundTrip(cols: seq<string>, tail: string)
    requires cols != [] && tail != "" && tail[0] == ')'
    ensures ReadList(ReadIdent, ", ", Join(Map(QuoteIdent, cols), ", ") + tail) == Some((cols, tail))
  {
    forall c, r | c in cols && (", " <= r || r == tail) ensures ReadIdent(QuoteIdent(c) + r) == Some((c, r)) {
      IdentRoundTrip(c, r);
    }
    ListRoundTrip(ReadIdent, QuoteIdent, c => c, ", ", cols, tail);
    assert Map((c: string) => c, cols) == cols;
  }

  lemma ValuesRoundTrip(values: Image)
    requires forall i :: 0 <= i < |values| ==> Printable(values[i])
    ensures ReadValueList(Join(Map(FormatValue, values), ", ") + ")") == Some((Map(Denote, values), ")"))
  {
    var s := Join(Map(FormatValue, values), ", ") + ")";
    if values == [] {
      assert s == ")";
    } else {
      forall v, r | v in values && (", " <= r || r == ")") ensures ReadLiteral(FormatValue(v) + r) == Some((Denote(v), r)) {
        ValueRoundTrip(v, r);
      }
      ListRoundTrip(ReadLiteral, FormatValue, Denote, ", ", values, ")");
      assert ReadLiteral(s).Some? && ReadLiteral(")").None?;
      assert s[0] != ')';
    }
  }

  lemma AssignmentsRoundTrip(before: Image, cols: seq<string>, tail: string)
    requires cols != [] && tail != "" && tail[0] == ' '
    requires forall i :: 0 <= i < |before| ==> Printable(before[i])
    ensures var ts := Pick(cols, Positions(|cols|), before);
      ReadList(ReadAssignment, ", ", Join(Map(AssignText, ts), ", ") + tail) == Some((Map(AssignMeaning, ts), tail))
  {
    var ts := Pick(cols, Positions(|cols|), before);
    PickPrintable(cols, Positions(|cols|), before);
    forall t, r | t in ts && (", " <= r || r == tail) ensures ReadAssignment(AssignText(t) + r) == Some((AssignMeaning(t), r)) {
      AssignRoundTrip(t, r);
    }
    ListRoundTrip(ReadAssignment, AssignText, AssignMeaning, ", ", ts, tail);
  }

  lemma UpdateBody(rc: RowChange, cols: seq<string>, pk: seq<string>)
    requires cols != [] && PrintableImages(rc)
    ensures var sets := Pick(cols, Positions(|cols|), rc.before);
      ReadUpdate(TableText(rc) + (" SET " + (Join(Map(AssignText, sets), ", ") + (" WHERE " + WhereText(rc.after, cols, pk)))))
      == Some(UpdateRows(rc.schema, rc.table, Map(AssignMeaning, sets), IntendedWhere(rc.after, cols, pk)))
  {
    var sets := Pick(cols, Positions(|cols|), rc.before);
    var r2 := " WHERE " + WhereText(rc.after, cols, pk);
    var r1 := Join(Map(AssignText, sets), ", ") + r2;
    TableNameRoundTrip(rc.schema, rc.table, " SET " + r1);
    Consume(" SET ", r1);
    AssignmentsRoundTrip(rc.before, cols, r2);
    WhereRoundTrip(rc.after, cols, pk);
  }

  // Concatenations, regrouped from the left to the right.
  lemma Regroup4(a: string, b: string, c: string, d: string)
    ensures a + b + c + d == a + (b + (c + d))
  {
  }

  lemma Regroup7(a: string, b: string, c: string, d: string, e: string, f: string, g: string)
    ensures a + b + c + d + e + f + g == a + (b + (c + (d + (e + (f + g)))))
  {
    Regroup4(a, b, c, d);
    Regroup4(a + b + c + d, e, f, g);
    Regroup4(b, c, d, e + (f + g));
  }

  lemma Regroup6(a: string, b: string, c: string, d: string, e: string, f: string)
    ensures a + b + c + d + e + f == a + (b + (c + (d + (e + f))))
  {
    Regroup4(a, b, c, d + (e + f));
    Regroup4(a + b + c, d, e, f);
  }

  lemma Dispatch(body: string)
    ensures ReadSql("INSERT INTO " + body) == ReadInsert(body)
    ensures ReadSql("DELETE FROM " + body) == ReadDelete(body)
    ensures ReadSql("UPDATE " + body) == ReadUpdate(body)
  {
    assert ("INSERT INTO " + body)[12..] == body;
    assert ("DELETE FROM " + body)[12..] == body && ("DELETE FROM " + body)[0] == 'D';
    assert ("UPDATE " + body)[7..] == body && ("UPDATE " + body)[0] == 'U';
  }

  lemma InsertRoundTrip(rc: RowChange, cols: seq<string>)
    requires cols != []
    requires forall i :: 0 <= i < |rc.before| ==> Printable(rc.before[i])
    ensures ReadSql(InsertText(rc, cols)) == Some(InsertRow(rc.schema, rc.table, cols, Map(Denote, rc.before)))
  {
    var table, names, values := TableText(rc), Join(Map(QuoteIdent, cols), ", "), Join(Map(FormatValue, rc.before), ", ");
    Regroup7("INSERT INTO ", table, " (", names, ") VALUES (", values, ")");
    Dispatch(table + (" (" + (names + (") VALUES (" + (values + ")")))));
    InsertBody(rc, cols);
  }

  lemma DeleteRoundTrip(rc: RowChange, cols: seq<string>, pk: seq<string>)
    requires cols != [] && PrintableImages(rc)
    ensures ReadSql(DeleteText(rc, cols, pk)) == Some(DeleteRows(rc.schema, rc.table, IntendedWhere(rc.after, cols, pk)))
  {
    var where := " WHERE " + WhereText(rc.after, cols, pk);
    Regroup4("DELETE FROM ", TableText(rc), " WHERE ", WhereText(rc.after, cols, pk));
    Dispatch(TableText(rc) + where);
    TableNameRoundTrip(rc.schema, rc.table, where);
    WhereRoundTrip(rc.after, cols, pk);
  }

  lemma UpdateRoundTrip(rc: RowChange, cols: seq<string>, pk: seq<string>)
    requires cols != [] && PrintableImages(rc)
    ensures ReadSql(UpdateText(rc, cols, pk))
      == Some(UpdateRows(rc.schema, rc.table, Map(AssignMeaning, Pick(cols, Positions(|cols|), rc.before)),
          IntendedWhere(rc.after, cols, pk)))
  {
    var table, where := TableText(rc), WhereText(rc.after, cols, pk);
    var sets := Join(Map(AssignText, Pick(cols, Positions(|cols|), rc.before)), ", ");
    Regroup6("UPDATE ", table, " SET ", sets, " WHERE ", where);
    Dispatch(table + (" SET " + (sets + (" WHERE " + where))));
    UpdateBody(rc, cols, pk);
  }

  /** Every statement the generator prints reads back as the statement the row change calls for. */
  lemma StatementRoundTrip(rc: RowChange, cols: seq<string>, pk: seq<string>)
    requires cols != [] && PrintableImages(rc) && !rc.action.Unknown?
    ensures ReadSql(BuildReverseSQL(rc, cols, pk).0) == Some(Intended(rc, cols, pk))
  {
    match rc.action
    case Delete => InsertRoundTrip(rc, cols);
    case Insert => DeleteRoundTrip(rc, cols, pk);
    case Update => UpdateRoundTrip(rc, cols, pk);
  }
}
