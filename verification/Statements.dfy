/**
 Which statements the generator hands out (internal/reverse/generator.go, types.go): exactly when a change gets
 its undo text, which warnings come with it, and what the clauses of the text hold, column by column.
 */
module Statements {
  import opened Base
  import opened Values
  import opened SqlLexis
  import opened SqlText
  import opened Generator
  import opened Database
  import opened Undo

  // ---------- which columns the WHERE clause tests ----------

  // The column's first position.
  predicate FirstAt(cols: seq<string>, col: string, i: nat) {
    i < |cols| && cols[i] == col && forall j :: 0 <= j < i ==> cols[j] != col
  }

  // The image has a value at position i.
  predicate Valued(image: Image, i: nat) {
    i < |image| && image[i] != Null
  }

  predicate KeyMissing(cols: seq<string>, pk: seq<string>, w: Warning) {
    w.KeyColumnNotFound? && w.col in pk && w.col !in cols
  }

  predicate KeyUnvalued(cols: seq<string>, pk: seq<string>, image: Image, w: Warning) {
    w.KeyColumnNoValue? && w.col in pk && exists i :: 0 <= i < |cols| && FirstAt(cols, w.col, i) && !Valued(image, i)
  }

  lemma FirstIs(cols: seq<string>, col: string, i: nat)
    ensures FirstAt(cols, col, i) <==> IndexOf(cols, col) == Some(i)
  {
    if FirstAt(cols, col, i) {
      assert cols[i] in cols;
      var k := IndexOf(cols, col).value;
      assert forall j :: 0 <= j < k ==> cols[j] == cols[..k][j];
    }
    if IndexOf(cols, col) == Some(i) {
      forall j | 0 <= j < i ensures cols[j] != col { assert cols[..i][j] == cols[j]; }
    }
  }

  /** The key positions are the first positions of the key columns there are, in key order, and the warnings
      name exactly the key columns there are not. */
  lemma {:induction false} ResolvedExactly(cols: seq<string>, pk: seq<string>)
    ensures var (idxs, warns) := ResolvedPK(cols, pk);
      var there := Filter((c: string) => c in cols, pk);
      && |idxs| == |there| && (forall k :: 0 <= k < |idxs| ==> FirstAt(cols, there[k], idxs[k]))
      && forall w :: w in warns <==> KeyMissing(cols, pk, w)
  {
    if pk != [] {
      var init, last := pk[..|pk| - 1], pk[|pk| - 1];
      ResolvedExactly(cols, init);
      assert pk == init + [last];
      FilterAppend((c: string) => c in cols, init, [last]);
      if last in cols { FirstIs(cols, last, IndexOf(cols, last).value); }
      forall w ensures w in ResolvedPK(cols, pk).1 <==> KeyMissing(cols, pk, w) {
        assert w in ResolvedPK(cols, init).1 <==> KeyMissing(cols, init, w);
      }
    }
  }

  predicate Warned(cols: seq<string>, idxs: seq<nat>, image: Image, w: Warning) {
    exists k :: 0 <= k < |idxs| && idxs[k] < |cols| && w == KeyColumnNoValue(cols[idxs[k]]) && !Valued(image, idxs[k])
  }

  lemma {:induction false} UsableExactly(cols: seq<string>, idxs: seq<nat>, image: Image)
    requires forall k :: 0 <= k < |idxs| ==> idxs[k] < |cols|
    ensures var (us, warns) := Usable(cols, idxs, image);
      us == Filter((i: nat) => Valued(image, i), idxs) && forall w :: w in warns <==> Warned(cols, idxs, image, w)
  {
    if idxs != [] {
      var init, last := idxs[..|idxs| - 1], idxs[|idxs| - 1];
      UsableExactly(cols, init, image);
      assert idxs == init + [last];
      FilterAppend((i: nat) => Valued(image, i), init, [last]);
      forall w ensures w in Usable(cols, idxs, image).1 <==> Warned(cols, idxs, image, w) {
        WarnedLast(cols, init, last, image, w);
      }
    }
  }

  lemma WarnedLast(cols: seq<string>, init: seq<nat>, last: nat, image: Image, w: Warning)
    requires last < |cols|
    ensures Warned(cols, init + [last], image, w)
      <==> Warned(cols, init, image, w) || (w == KeyColumnNoValue(cols[last]) && !Valued(image, last))
  {
    var idxs := init + [last];
    if Warned(cols, init, image, w) {
      var k :| 0 <= k < |init| && init[k] < |cols| && w == KeyColumnNoValue(cols[init[k]]) && !Valued(image, init[k]);
      assert idxs[k] == init[k];
    }
    assert idxs[|init|] == last;
  }

  // The first positions of the key columns the table has.
  predicate KeyAt(cols: seq<string>, pk: seq<string>, idxs: seq<nat>) {
    var there := Filter((c: string) => c in cols, pk);
    |idxs| == |there| && forall k :: 0 <= k < |idxs| ==> FirstAt(cols, there[k], idxs[k])
  }

  lemma {:induction false} FilterHolds<A>(p: A -> bool, xs: seq<A>)
    ensures forall x :: x in Filter(p, xs) <==> x in xs && p(x)
  {
    if xs != [] {
      FilterHolds(p, xs[1..]);
      assert forall x :: x in xs <==> x == xs[0] || x in xs[1..];
    }
  }

  lemma UnvaluedIff(cols: seq<string>, pk: seq<string>, idxs: seq<nat>, image: Image, w: Warning)
    requires KeyAt(cols, pk, idxs)
    ensures Warned(cols, idxs, image, w) <==> KeyUnvalued(cols, pk, image, w)
  {
    var there := Filter((c: string) => c in cols, pk);
    FilterHolds((c: string) => c in cols, pk);
    if Warned(cols, idxs, image, w) {
      var k :| 0 <= k < |idxs| && idxs[k] < |cols| && w == KeyColumnNoValue(cols[idxs[k]]) && !Valued(image, idxs[k]);
      assert there[k] in there && FirstAt(cols, there[k], idxs[k]);
    }
    if KeyUnvalued(cols, pk, image, w) {
      var i :| 0 <= i < |cols| && FirstAt(cols, w.col, i) && !Valued(image, i);
      assert w.col in there;
      var k :| 0 <= k < |there| && there[k] == w.col;
      FirstIs(cols, w.col, i);
      FirstIs(cols, w.col, idxs[k]);
    }
  }

  /** The WHERE clause tests the key columns that are there and have a value, in key order, or every column if
      there are none; it warns exactly of the key columns that are not there or have no value. */
  lemma WhereExactly(after: Image, cols: seq<string>, pk: seq<string>) returns (key: seq<nat>)
    ensures KeyAt(cols, pk, key)
    ensures var usable := Filter((i: nat) => Valued(after, i), key);
      WhereColumns(after, cols, pk).0 == if usable != [] then usable else Positions(|cols|)
    ensures forall w :: w in WhereColumns(after, cols, pk).1 <==> KeyMissing(cols, pk, w) || KeyUnvalued(cols, pk, after, w)
  {
    key := ResolvedPK(cols, pk).0;
    ResolvedExactly(cols, pk);
    UsableExactly(cols, key, after);
    forall w ensures w in Usable(cols, key, after).1 <==> KeyUnvalued(cols, pk, after, w) {
      UnvaluedIff(cols, pk, key, after, w);
    }
  }

  // ---------- one statement ----------

  predicate HasBefore(rc: RowChange) {
    rc.action == Update || rc.action == Delete
  }

  predicate HasAfter(rc: RowChange) {
    rc.action == Update || rc.action == Insert
  }

  // The columns the statement names: the event's own, or the definition's.
  function Named(rc: RowChange, def: TableSchema): seq<string> {
    if rc.columnNames != [] then rc.columnNames else def.columns
  }

  // The text a change is undone by, whatever its length.
  function TextOf(rc: RowChange, def: TableSchema): string {
    match rc.action
    case Delete => InsertText(rc, Named(rc, def))
    case Insert => DeleteText(rc, Named(rc, def), def.primaryKey)
    case Update => UpdateText(rc, Named(rc, def), def.primaryKey)
    case Unknown(_) => ""
  }

  // The table's definition is known and columns have names.
  predicate Listed(rc: RowChange, schema: map<string, TableSchema>) {
    var key := rc.schema + "." + rc.table;
    key in schema && Named(rc, schema[key]) != []
  }

  // It gets its text: of a known action, and no longer than max bytes.
  predicate Written(rc: RowChange, schema: map<string, TableSchema>, max: int) {
    Listed(rc, schema) && !rc.action.Unknown? && |TextOf(rc, schema[rc.schema + "." + rc.table])| <= max
  }

  // The cause of each warning.
  predicate Due(w: Warning, rc: RowChange, schema: map<string, TableSchema>, max: int) {
    var key := rc.schema + "." + rc.table;
    match w
    case SchemaNotFound(k) => k == key && key !in schema
    case NoColumnNames(k) => k == key && key in schema && Named(rc, schema[key]) == []
    case UnknownAction(code) => Listed(rc, schema) && rc.action == Unknown(code)
    case TooLong(m) => m == max && Listed(rc, schema) && !rc.action.Unknown? && |TextOf(rc, schema[key])| > max
    case BeforeMismatch(have, want) =>
      Written(rc, schema, max) && HasBefore(rc) && have == |rc.before| && want == |Named(rc, schema[key])| && have != want
    case AfterMismatch(have, want) =>
      Written(rc, schema, max) && HasAfter(rc) && have == |rc.after| && want == |Named(rc, schema[key])| && have != want
    case KeyColumnNotFound(_) =>
      Written(rc, schema, max) && HasAfter(rc) && KeyMissing(Named(rc, schema[key]), schema[key].primaryKey, w)
    case KeyColumnNoValue(_) =>
      Written(rc, schema, max) && HasAfter(rc) && KeyUnvalued(Named(rc, schema[key]), schema[key].primaryKey, rc.after, w)
    case _ => false
  }

  lemma TextStarts(rc: RowChange, cols: seq<string>, pk: seq<string>)
    ensures InsertText(rc, cols) != "" && DeleteText(rc, cols, pk) != "" && UpdateText(rc, cols, pk) != ""
  {
    var table := TableText(rc);
    assert |InsertText(rc, cols)| >= |"INSERT INTO " + table| >= 12;
    assert |DeleteText(rc, cols, pk)| >= |"DELETE FROM " + table| >= 12;
    assert |UpdateText(rc, cols, pk)| >= |"UPDATE " + table| >= 7;
  }

  lemma ReverseSQLIs(rc: RowChange, def: TableSchema)
    ensures BuildReverseSQL(rc, Named(rc, def), def.primaryKey).0 == TextOf(rc, def)
    ensures TextOf(rc, def) == "" <==> rc.action.Unknown?
  {
    TextStarts(rc, Named(rc, def), def.primaryKey);
  }

  lemma ReverseWarns(rc: RowChange, cols: seq<string>, pk: seq<string>, w: Warning)
    requires !rc.action.Unknown?
    ensures w in BuildReverseSQL(rc, cols, pk).1 <==>
      || (HasBefore(rc) && w == BeforeMismatch(|rc.before|, |cols|) && |rc.before| != |cols|)
      || (HasAfter(rc) && w == AfterMismatch(|rc.after|, |cols|) && |rc.after| != |cols|)
      || (HasAfter(rc) && (KeyMissing(cols, pk, w) || KeyUnvalued(cols, pk, rc.after, w)))
  {
    var key := WhereExactly(rc.after, cols, pk);
  }

  lemma UnlistedExactly(rc: RowChange, txId: string, order: int, schema: map<string, TableSchema>, max: int, w: Warning)
    requires !Listed(rc, schema)
    ensures UndoStatement(rc, txId, order, schema, max).sql == ""
    ensures w in UndoStatement(rc, txId, order, schema, max).warnings <==> Due(w, rc, schema, max)
  {
  }

  lemma UnwrittenExactly(rc: RowChange, txId: string, order: int, schema: map<string, TableSchema>, max: int, w: Warning)
    requires Listed(rc, schema) && !Written(rc, schema, max)
    ensures UndoStatement(rc, txId, order, schema, max).sql == ""
    ensures w in UndoStatement(rc, txId, order, schema, max).warnings <==> Due(w, rc, schema, max)
  {
    ReverseSQLIs(rc, schema[rc.schema + "." + rc.table]);
  }

  lemma WrittenIs(rc: RowChange, txId: string, order: int, schema: map<string, TableSchema>, max: int)
    requires Written(rc, schema, max)
    ensures var def := schema[rc.schema + "." + rc.table];
      UndoStatement(rc, txId, order, schema, max)
        == Statement(TextOf(rc, def), txId, order, BuildReverseSQL(rc, Named(rc, def), def.primaryKey).1)
      && TextOf(rc, def) != ""
  {
    ReverseSQLIs(rc, schema[rc.schema + "." + rc.table]);
  }

  lemma WrittenExactly(rc: RowChange, txId: string, order: int, schema: map<string, TableSchema>, max: int, w: Warning)
    requires Written(rc, schema, max)
    ensures w in UndoStatement(rc, txId, order, schema, max).warnings <==> Due(w, rc, schema, max)
  {
    var def := schema[rc.schema + "." + rc.table];
    WrittenIs(rc, txId, order, schema, max);
    ReverseWarns(rc, Named(rc, def), def.primaryKey, w);
  }

  // The statement a change calls for: its text where it gets one, and the warnings that have a cause.
  ghost predicate CalledFor(st: Statement, rc: RowChange, schema: map<string, TableSchema>, max: int) {
    && st.sql == (if Written(rc, schema, max) then TextOf(rc, schema[rc.schema + "." + rc.table]) else "")
    && (Written(rc, schema, max) <==> st.sql != "")
    && forall w :: w in st.warnings <==> Due(w, rc, schema, max)
  }

  /** A change gets its undo text exactly when its table's definition and columns are known, its action is, and
      the text is no longer than the limit; otherwise nothing. It warns exactly where a cause is given. */
  lemma StatementExactly(rc: RowChange, txId: string, order: int, schema: map<string, TableSchema>, max: int)
    ensures var st := UndoStatement(rc, txId, order, schema, max);
      st.txId == txId && st.txOrder == order && CalledFor(st, rc, schema, max)
  {
    if Written(rc, schema, max) {
      WrittenIs(rc, txId, order, schema, max);
    } else if Listed(rc, schema) {
      UnwrittenExactly(rc, txId, order, schema, max, TransactionTruncated);
    } else {
      UnlistedExactly(rc, txId, order, schema, max, TransactionTruncated);
    }
    forall w ensures w in UndoStatement(rc, txId, order, schema, max).warnings <==> Due(w, rc, schema, max) {
      if Written(rc, schema, max) { WrittenExactly(rc, txId, order, schema, max, w); }
      else if Listed(rc, schema) { UnwrittenExactly(rc, txId, order, schema, max, w); }
      else { UnlistedExactly(rc, txId, order, schema, max, w); }
    }
  }

  // ---------- a plan ----------

  // The size limit of a plan, in bytes: as asked for, or 16 KiB.
  function SizeLimit(max: int): int {
    if max == 0 then 16384 else max
  }

  lemma {:induction false} UndoFromAt(rows: seq<RowChange>, i: nat, txId: string, schema: map<string, TableSchema>, max: int, k: nat)
    requires i <= |rows| && k < |rows| - i
    ensures UndoFrom(rows, i, txId, schema, max)[k] == UndoStatement(rows[|rows| - 1 - k], txId, k, schema, max)
    decreases |rows| - i
  {
    if k < |rows| - i - 1 { UndoFromAt(rows, i + 1, txId, schema, max, k); }
  }

  /** Statement k of a plan belongs to the change that is k-th from the end, carries the transaction's id and
      number k, and its text and warnings are what that change calls for under the plan's limit. */
  lemma PlanExactly(tx: Transaction, schema: map<string, TableSchema>, max: int, k: nat)
    requires k < |tx.statements|
    ensures var st, rc := UndoPlan(tx, schema, max)[k], tx.statements[|tx.statements| - 1 - k];
      st.txId == tx.txId && st.txOrder == k && CalledFor(st, rc, schema, SizeLimit(max))
  {
    UndoFromAt(tx.statements, 0, tx.txId, schema, Limit(max), k);
    StatementExactly(tx.statements[|tx.statements| - 1 - k], tx.txId, k, schema, SizeLimit(max));
  }

  lemma NamesAgree(defs: Definitions, schema: map<string, TableSchema>, rc: RowChange)
    requires SchemaAgrees(defs, schema, rc)
    ensures Named(rc, defs[TableOf(rc)]) == defs[TableOf(rc)].columns
    ensures rc.schema + "." + rc.table in schema ==> schema[rc.schema + "." + rc.table] == defs[TableOf(rc)]
  {
  }

  lemma WhereWarns(after: Image, cols: seq<string>, pk: seq<string>)
    ensures WhereColumns(after, cols, pk).1 == [] <==>
      forall w :: !KeyMissing(cols, pk, w) && !KeyUnvalued(cols, pk, after, w)
  {
    var key := WhereExactly(after, cols, pk);
    var warns := WhereColumns(after, cols, pk).1;
    if warns != [] { assert warns[0] in warns; }
  }

  lemma CleanDuesNothing(defs: Definitions, schema: map<string, TableSchema>, rc: RowChange, max: int, w: Warning)
    requires SchemaAgrees(defs, schema, rc) && Written(rc, schema, max) && Clean(defs, rc)
    ensures !Due(w, rc, schema, max)
  {
    var def := defs[TableOf(rc)];
    NamesAgree(defs, schema, rc);
    if HasAfter(rc) { WhereWarns(rc.after, def.columns, def.primaryKey); }
  }

  lemma NothingDueIsClean(defs: Definitions, schema: map<string, TableSchema>, rc: RowChange, max: int)
    requires SchemaAgrees(defs, schema, rc) && Written(rc, schema, max) && forall w :: !Due(w, rc, schema, max)
    ensures Clean(defs, rc)
  {
    var def := defs[TableOf(rc)];
    NamesAgree(defs, schema, rc);
    assert !Due(BeforeMismatch(|rc.before|, |def.columns|), rc, schema, max);
    assert !Due(AfterMismatch(|rc.after|, |def.columns|), rc, schema, max);
    if HasAfter(rc) {
      forall w ensures !KeyMissing(def.columns, def.primaryKey, w) && !KeyUnvalued(def.columns, def.primaryKey, rc.after, w) {
        assert !Due(w, rc, schema, max);
      }
      WhereWarns(rc.after, def.columns, def.primaryKey);
    }
  }

  lemma NoneDue(defs: Definitions, schema: map<string, TableSchema>, rc: RowChange, max: int)
    requires SchemaAgrees(defs, schema, rc) && Written(rc, schema, max)
    ensures (forall w :: !Due(w, rc, schema, max)) <==> Clean(defs, rc)
  {
    if Clean(defs, rc) {
      forall w ensures !Due(w, rc, schema, max) { CleanDuesNothing(defs, schema, rc, max, w); }
    } else if forall w :: !Due(w, rc, schema, max) {
      NothingDueIsClean(defs, schema, rc, max);
    }
  }

  // The table's definition was fetched, the change is clean and its text fits.
  predicate Prints(defs: Definitions, schema: map<string, TableSchema>, rc: RowChange, max: int) {
    rc.schema + "." + rc.table in schema && Clean(defs, rc) && |TextOf(rc, defs[TableOf(rc)])| <= max
  }

  /** A statement comes out non-empty and without warnings exactly when the table's definition was fetched, the
      change is clean (whole images, every key column with a value) and its text fits the limit. */
  lemma SuccessfulIff(defs: Definitions, schema: map<string, TableSchema>, rc: RowChange, txId: string, order: int, max: int)
    requires SchemaAgrees(defs, schema, rc)
    ensures Successful(UndoStatement(rc, txId, order, schema, max)) <==> Prints(defs, schema, rc, max)
  {
    var st := UndoStatement(rc, txId, order, schema, max);
    NamesAgree(defs, schema, rc);
    StatementExactly(rc, txId, order, schema, max);
    if st.warnings != [] { assert st.warnings[0] in st.warnings && Due(st.warnings[0], rc, schema, max); }
    if Written(rc, schema, max) { NoneDue(defs, schema, rc, max); }
  }

  /** A whole plan does, exactly when every change of the transaction does. */
  lemma PlanSuccessfulIff(defs: Definitions, schema: map<string, TableSchema>, tx: Transaction, max: int)
    requires forall i :: 0 <= i < |tx.statements| ==> SchemaAgrees(defs, schema, tx.statements[i])
    ensures (forall st :: st in UndoPlan(tx, schema, max) ==> Successful(st))
      <==> forall i :: 0 <= i < |tx.statements| ==> Prints(defs, schema, tx.statements[i], SizeLimit(max))
  {
    var plan, rows, n := UndoPlan(tx, schema, max), tx.statements, |tx.statements|;
    forall k | 0 <= k < n ensures Successful(plan[k]) <==> Prints(defs, schema, rows[n - 1 - k], SizeLimit(max)) {
      UndoFromAt(rows, 0, tx.txId, schema, Limit(max), k);
      SuccessfulIff(defs, schema, rows[n - 1 - k], tx.txId, k, SizeLimit(max));
    }
    if forall i :: 0 <= i < n ==> Prints(defs, schema, rows[i], SizeLimit(max)) {
      forall st | st in plan ensures Successful(st) {
        var k :| 0 <= k < n && plan[k] == st;
        assert Prints(defs, schema, rows[n - 1 - k], SizeLimit(max));
      }
    }
    if forall st :: st in plan ==> Successful(st) {
      forall i | 0 <= i < n ensures Prints(defs, schema, rows[i], SizeLimit(max)) {
        assert plan[n - 1 - i] in plan;
      }
    }
  }

  // ---------- what the clauses hold ----------

  // A column's value in an image, NULL where the image is too short.
  function ValueAt(image: Image, i: nat): Literal {
    if i < |image| then Denote(image[i]) else LNull
  }

  /** An UPDATE assigns every column its old value, and the WHERE clause compares each tested column with its
      new value, by IS NULL where that is NULL; a value the image lacks is NULL. */
  lemma ClausesExactly(rc: RowChange, cols: seq<string>, pk: seq<string>)
    requires !rc.action.Unknown?
    ensures HasAfter(rc) ==> var where, at := Intended(rc, cols, pk).where, WhereColumns(rc.after, cols, pk).0;
      |where| == |at| && forall k :: 0 <= k < |at| ==>
        where[k] == if Valued(rc.after, at[k]) then Equals(cols[at[k]], ValueAt(rc.after, at[k])) else IsNull(cols[at[k]])
    ensures rc.action == Update ==> var sets := Intended(rc, cols, pk).assignments;
      |sets| == |cols| && forall i :: 0 <= i < |cols| ==> sets[i] == (cols[i], ValueAt(rc.before, i))
    ensures rc.action == Delete ==> var q := Intended(rc, cols, pk);
      q.cols == cols && |q.values| == |rc.before| && forall i :: 0 <= i < |rc.before| ==> q.values[i] == ValueAt(rc.before, i)
  {
    assert Denote(Null) == LNull;
  }
}
