/**
 What row changes and undo statements do to tables. A table is a multiset of rows of literals; values
 are compared structurally.
 */
module Database {
  import opened Base
  import opened Values
  import opened SqlLexis
  import opened SqlText
  import opened Generator

  type Row = seq<Literal>
  type TableId = (string, string)
  type Definitions = map<TableId, TableSchema>
  type State = map<TableId, multiset<Row>>

  function RowOf(image: Image): Row {
    Map(Denote, image)
  }

  function TableOf(rc: RowChange): TableId {
    (rc.schema, rc.table)
  }

  // ---------- SQL ----------

  predicate Holds(cols: seq<string>, row: Row, c: Condition) {
    match IndexOf(cols, c.col)
    case None => false
    case Some(i) =>
      i < |row| &&
      match c
      case IsNull(_) => row[i] == LNull
      case Equals(_, v) => row[i] == v && v != LNull
  }

  predicate Matches(cols: seq<string>, row: Row, where: seq<Condition>) {
    forall i :: 0 <= i < |where| ==> Holds(cols, row, where[i])
  }

  ghost function Matching(cols: seq<string>, where: seq<Condition>, m: multiset<Row>): (r: multiset<Row>)
    ensures forall x :: r[x] == if Matches(cols, x, where) then m[x] else 0
    decreases |m|
  {
    if m == multiset{} then multiset{}
    else
      var x :| x in m;
      (if Matches(cols, x, where) then multiset{x} else multiset{}) + Matching(cols, where, m - multiset{x})
  }

  // The value an assignment list gives column c, if any.
  function Assigned(c: string, sets: seq<(string, Literal)>): Option<Literal> {
    if sets == [] then None
    else if sets[0].0 == c then Some(sets[0].1)
    else Assigned(c, sets[1..])
  }

  function Updated(cols: seq<string>, row: Row, sets: seq<(string, Literal)>): Row {
    seq(|cols|, j requires 0 <= j < |cols| =>
      match Assigned(cols[j], sets)
      case Some(v) => v
      case None => if j < |row| then row[j] else LNull)
  }

  ghost function Rewritten(cols: seq<string>, sets: seq<(string, Literal)>, m: multiset<Row>): multiset<Row>
    decreases |m|
  {
    if m == multiset{} then multiset{}
    else
      var x :| x in m;
      multiset{Updated(cols, x, sets)} + Rewritten(cols, sets, m - multiset{x})
  }

  function Zip(cols: seq<string>, values: seq<Literal>): (r: seq<(string, Literal)>)
    requires |cols| == |values|
  {
    seq(|cols|, i requires 0 <= i < |cols| => (cols[i], values[i]))
  }

  function Id(q: Sql): TableId {
    (q.schema, q.table)
  }

  predicate CanExecute(defs: Definitions, s: State, q: Sql) {
    Id(q) in defs && Id(q) in s && (q.InsertRow? ==> |q.cols| == |q.values|)
  }

  ghost function RowsAfter(def: TableSchema, m: multiset<Row>, q: Sql): multiset<Row>
    requires q.InsertRow? ==> |q.cols| == |q.values|
  {
    match q
    case InsertRow(_, _, cols, values) => m + multiset{Updated(def.columns, [], Zip(cols, values))}
    case DeleteRows(_, _, where) => m - Matching(def.columns, where, m)
    case UpdateRows(_, _, sets, where) =>
      var hit := Matching(def.columns, where, m);
      m - hit + Rewritten(def.columns, sets, hit)
  }

  ghost function Execute(defs: Definitions, s: State, q: Sql): Option<State> {
    if CanExecute(defs, s, q) then Some(s[Id(q) := RowsAfter(defs[Id(q)], s[Id(q)], q)]) else None
  }

  ghost function ExecuteAll(defs: Definitions, s: State, qs: seq<Sql>): Option<State> {
    if qs == [] then Some(s)
    else match Execute(defs, s, qs[0])
      case None => None
      case Some(s') => ExecuteAll(defs, s', qs[1..])
  }

  // Running printed statements: an empty statement is skipped, an unreadable one is an error.
  ghost function ExecuteText(defs: Definitions, s: State, plan: seq<Statement>): Option<State> {
    if plan == [] then Some(s)
    else if plan[0].sql == "" then ExecuteText(defs, s, plan[1..])
    else match ReadSql(plan[0].sql)
      case None => None
      case Some(q) =>
        match Execute(defs, s, q)
        case None => None
        case Some(s') => ExecuteText(defs, s', plan[1..])
  }

  // ---------- row changes, as the server performed them ----------

  predicate CanApply(s: State, rc: RowChange) {
    TableOf(rc) in s && (rc.action.Delete? || rc.action.Update? ==> RowOf(rc.before) in s[TableOf(rc)])
  }

  function RowsApplied(m: multiset<Row>, rc: RowChange): multiset<Row> {
    match rc.action
    case Insert => m + multiset{RowOf(rc.after)}
    case Delete => m - multiset{RowOf(rc.before)}
    case Update => m - multiset{RowOf(rc.before)} + multiset{RowOf(rc.after)}
    case Unknown(_) => m
  }

  function Apply(s: State, rc: RowChange): State
    requires CanApply(s, rc)
  {
    s[TableOf(rc) := RowsApplied(s[TableOf(rc)], rc)]
  }

  // Each change can be applied in the state it meets.
  predicate Runs(s: State, rows: seq<RowChange>) {
    rows == [] || (CanApply(s, rows[0]) && Runs(Apply(s, rows[0]), rows[1..]))
  }

  function ApplyAll(s: State, rows: seq<RowChange>): State
    requires Runs(s, rows)
  {
    if rows == [] then s else ApplyAll(Apply(s, rows[0]), rows[1..])
  }

  // ---------- keys ----------

  function KeyPositions(def: TableSchema): (r: seq<nat>)
    ensures forall k :: 0 <= k < |r| ==> r[k] < |def.columns|
  {
    if def.primaryKey == [] then Positions(|def.columns|) else ResolvedPK(def.columns, def.primaryKey).0
  }

  predicate SameAt(idxs: seq<nat>, x: Row, y: Row) {
    forall k :: 0 <= k < |idxs| ==> idxs[k] < |x| && idxs[k] < |y| && x[idxs[k]] == y[idxs[k]]
  }

  // No two rows of the table, counting repetitions, share a key (the whole row, without a primary key).
  ghost predicate Keyed(def: TableSchema, m: multiset<Row>) {
    (forall x :: x in m ==> m[x] == 1) &&
    (forall x, y :: x in m && y in m && SameAt(KeyPositions(def), x, y) ==> x == y)
  }

  // Every table the changes name is keyed in every state they pass through.
  ghost predicate StaysKeyed(defs: Definitions, s: State, rows: seq<RowChange>)
    requires Runs(s, rows)
  {
    rows == [] ||
    (var s' := Apply(s, rows[0]);
      (TableOf(rows[0]) in defs ==> Keyed(defs[TableOf(rows[0])], s'[TableOf(rows[0])]))
      && StaysKeyed(defs, s', rows[1..]))
  }
}
