/**
 Executing the plan generated for one transaction restores the tables (internal/reverse/generator.go), and
 exactly when each of its statements does.
 */
module Undo {
  import opened Base
  import opened Values
  import opened SqlLexis
  import opened SqlText
  import opened Generator
  import opened Database

  // A row change whose undo statement was generated without warnings.
  predicate Clean(defs: Definitions, rc: RowChange) {
    TableOf(rc) in defs && !rc.action.Unknown? &&
    var def := defs[TableOf(rc)];
    def.columns != [] && Distinct(def.columns) &&
    (rc.action.Delete? || rc.action.Update? ==> |rc.before| == |def.columns|) &&
    (rc.action.Insert? || rc.action.Update? ==>
      |rc.after| == |def.columns| && WhereColumns(rc.after, def.columns, def.primaryKey).1 == [])
  }

  function Reversal(defs: Definitions, rc: RowChange): Sql
    requires Clean(defs, rc)
  {
    Intended(rc, defs[TableOf(rc)].columns, defs[TableOf(rc)].primaryKey)
  }

  ghost predicate SelectedBy(defs: Definitions, rc: RowChange, x: Row)
    requires Clean(defs, rc)
  {
    var def := defs[TableOf(rc)];
    Matches(def.columns, x, IntendedWhere(rc.after, def.columns, def.primaryKey))
  }

  /** Exactly when the undo statement of rc restores the rows m that rc was applied to. */
  ghost predicate Reversible(defs: Definitions, m: multiset<Row>, rc: RowChange)
    requires Clean(defs, rc)
  {
    match rc.action
    case Delete => true
    case Insert => forall x :: x in m ==> !SelectedBy(defs, rc, x)
    case Update =>
      forall x :: x in m - multiset{RowOf(rc.before)} && SelectedBy(defs, rc, x) ==> x == RowOf(rc.before)
  }

  // ---------- what the WHERE clause selects ----------

  lemma IndexOfDistinct(cols: seq<string>, i: nat)
    requires Distinct(cols) && i < |cols|
    ensures IndexOf(cols, cols[i]) == Some(i)
  {
    assert cols[i] in cols;
  }

  lemma SelectsByColumns(defs: Definitions, rc: RowChange, x: Row)
    requires Clean(defs, rc) && |rc.after| == |defs[TableOf(rc)].columns|
    ensures var def := defs[TableOf(rc)];
      SelectedBy(defs, rc, x) <==> SameAt(WhereColumns(rc.after, def.columns, def.primaryKey).0, x, RowOf(rc.after))
  {
    var def := defs[TableOf(rc)];
    var idxs := WhereColumns(rc.after, def.columns, def.primaryKey).0;
    var where := IntendedWhere(rc.after, def.columns, def.primaryKey);
    forall k | 0 <= k < |idxs|
      ensures Holds(def.columns, x, where[k]) <==> idxs[k] < |x| && x[idxs[k]] == RowOf(rc.after)[idxs[k]]
    {
      IndexOfDistinct(def.columns, idxs[k]);
      assert where[k] == TermMeaning((def.columns[idxs[k]], rc.after[idxs[k]]));
    }
    if SelectedBy(defs, rc, x) {
      forall k | 0 <= k < |idxs| ensures idxs[k] < |x| && x[idxs[k]] == RowOf(rc.after)[idxs[k]] {
        assert Holds(def.columns, x, where[k]);
      }
    }
  }

  lemma {:induction false} ResolvedAll(cols: seq<string>, pk: seq<string>)
    requires ResolvedPK(cols, pk).1 == []
    ensures |ResolvedPK(cols, pk).0| == |pk|
    ensures forall k :: 0 <= k < |pk| ==> cols[ResolvedPK(cols, pk).0[k]] == pk[k]
  {
    if pk != [] {
      ResolvedAll(cols, pk[..|pk| - 1]);
    }
  }

  lemma {:induction false} UsableAll(cols: seq<string>, idxs: seq<nat>, image: Image)
    requires forall k :: 0 <= k < |idxs| ==> idxs[k] < |cols|
    requires Usable(cols, idxs, image).1 == []
    ensures Usable(cols, idxs, image).0 == idxs
  {
    if idxs != [] {
      UsableAll(cols, idxs[..|idxs| - 1], image);
    }
  }

  /** Without warnings the WHERE clause tests the whole primary key, in key order, or every column when
      the table has none. */
  lemma WarningFreeWhereIsKey(after: Image, def: TableSchema)
    requires WhereColumns(after, def.columns, def.primaryKey).1 == []
    ensures WhereColumns(after, def.columns, def.primaryKey).0 == KeyPositions(def)
  {
    ResolvedAll(def.columns, def.primaryKey);
    UsableAll(def.columns, ResolvedPK(def.columns, def.primaryKey).0, after);
  }

  lemma SelectsByKey(defs: Definitions, rc: RowChange, x: Row)
    requires Clean(defs, rc) && !rc.action.Delete?
    ensures SelectedBy(defs, rc, x) <==> SameAt(KeyPositions(defs[TableOf(rc)]), x, RowOf(rc.after))
  {
    SelectsByColumns(defs, rc, x);
    WarningFreeWhereIsKey(rc.after, defs[TableOf(rc)]);
  }

  lemma SelectsAfter(defs: Definitions, rc: RowChange)
    requires Clean(defs, rc) && !rc.action.Delete?
    ensures SelectedBy(defs, rc, RowOf(rc.after))
  {
    SelectsByKey(defs, rc, RowOf(rc.after));
  }

  // ---------- what one undo statement does ----------

  lemma {:induction false} AssignedAt(cols: seq<string>, sets: seq<(string, Literal)>, j: nat)
    requires Distinct(cols) && |sets| == |cols| && j < |cols|
    requires forall i :: 0 <= i < |cols| ==> sets[i].0 == cols[i]
    ensures Assigned(cols[j], sets) == Some(sets[j].1)
  {
    AssignedFrom(cols, sets, j, 0);
    assert sets[0..] == sets;
  }

  lemma {:induction false} AssignedFrom(cols: seq<string>, sets: seq<(string, Literal)>, j: nat, i: nat)
    requires Distinct(cols) && |sets| == |cols| && i <= j < |cols|
    requires forall i :: 0 <= i < |cols| ==> sets[i].0 == cols[i]
    ensures Assigned(cols[j], sets[i..]) == Some(sets[j].1)
    decreases j - i
  {
    assert sets[i..][0] == sets[i];
    if i < j {
      assert sets[i..][1..] == sets[i + 1..];
      AssignedFrom(cols, sets, j, i + 1);
    }
  }

  // Assigning every column yields the assigned row, whatever row it is applied to.
  lemma UpdatedWhole(cols: seq<string>, x: Row, image: Image)
    requires Distinct(cols) && |image| == |cols|
    ensures Updated(cols, x, Map(AssignMeaning, Pick(cols, Positions(|cols|), image))) == RowOf(image)
    ensures Updated(cols, x, Zip(cols, Map(Denote, image))) == RowOf(image)
  {
    var sets := Map(AssignMeaning, Pick(cols, Positions(|cols|), image));
    var zipped := Zip(cols, Map(Denote, image));
    assert forall i :: 0 <= i < |cols| ==> sets[i] == zipped[i] == (cols[i], RowOf(image)[i]);
    assert sets == zipped;
    forall j | 0 <= j < |cols| ensures Updated(cols, x, sets)[j] == RowOf(image)[j] {
      AssignedAt(cols, sets, j);
    }
  }

  function Copies(x: Row, n: nat): multiset<Row> {
    multiset{}[x := n]
  }

  lemma CopiesMore(x: Row, n: nat)
    ensures Copies(x, n + 1) == multiset{x} + Copies(x, n)
  {
  }

  lemma {:induction false} RewrittenWhole(cols: seq<string>, m: multiset<Row>, image: Image)
    requires Distinct(cols) && |image| == |cols|
    ensures Rewritten(cols, Map(AssignMeaning, Pick(cols, Positions(|cols|), image)), m) == Copies(RowOf(image), |m|)
    decreases |m|
  {
    if m != multiset{} {
      var sets := Map(AssignMeaning, Pick(cols, Positions(|cols|), image));
      var x :| x in m && Rewritten(cols, sets, m) == multiset{Updated(cols, x, sets)} + Rewritten(cols, sets, m - multiset{x});
      UpdatedWhole(cols, x, image);
      RewrittenWhole(cols, m - multiset{x}, image);
      CopiesMore(RowOf(image), |m| - 1);
    }
  }

  ghost function Selected(defs: Definitions, rc: RowChange, m: multiset<Row>): multiset<Row>
    requires Clean(defs, rc)
  {
    var def := defs[TableOf(rc)];
    Matching(def.columns, IntendedWhere(rc.after, def.columns, def.primaryKey), m)
  }

  // The rows after the undo statement of rc.
  ghost function RowsReversed(defs: Definitions, m: multiset<Row>, rc: RowChange): multiset<Row>
    requires Clean(defs, rc)
  {
    match rc.action
    case Delete => m + multiset{RowOf(rc.before)}
    case Insert => m - Selected(defs, rc, m)
    case Update => m - Selected(defs, rc, m) + Copies(RowOf(rc.before), |Selected(defs, rc, m)|)
  }

  // What executing an undo statement puts in the place of a table's rows.
  lemma DeleteReversed(defs: Definitions, m: multiset<Row>, rc: RowChange)
    requires Clean(defs, rc) && rc.action.Delete?
    ensures RowsAfter(defs[TableOf(rc)], m, Reversal(defs, rc)) == RowsReversed(defs, m, rc)
  {
    UpdatedWhole(defs[TableOf(rc)].columns, [], rc.before);
  }

  lemma UpdateReversed(defs: Definitions, m: multiset<Row>, rc: RowChange)
    requires Clean(defs, rc) && rc.action.Update?
    ensures RowsAfter(defs[TableOf(rc)], m, Reversal(defs, rc)) == RowsReversed(defs, m, rc)
  {
    RewrittenWhole(defs[TableOf(rc)].columns, Selected(defs, rc, m), rc.before);
  }

  lemma ReversalRows(defs: Definitions, s: State, rc: RowChange)
    requires Clean(defs, rc)
    ensures TableOf(rc) in s ==>
      Execute(defs, s, Reversal(defs, rc)) == Some(s[TableOf(rc) := RowsReversed(defs, s[TableOf(rc)], rc)])
    ensures TableOf(rc) !in s ==> Execute(defs, s, Reversal(defs, rc)) == None
  {
    if TableOf(rc) in s {
      match rc.action
      case Delete => DeleteReversed(defs, s[TableOf(rc)], rc);
      case Insert =>
      case Update => UpdateReversed(defs, s[TableOf(rc)], rc);
    }
  }

  lemma UndoInsertIff(defs: Definitions, m: multiset<Row>, rc: RowChange)
    requires Clean(defs, rc) && rc.action.Insert?
    ensures RowsReversed(defs, RowsApplied(m, rc), rc) == m <==> Reversible(defs, m, rc)
  {
    var a := RowOf(rc.after);
    SelectsAfter(defs, rc);
    var back := RowsReversed(defs, m + multiset{a}, rc);
    if Reversible(defs, m, rc) {
      assert forall x :: back[x] == m[x];
    } else {
      var x :| x in m && SelectedBy(defs, rc, x);
      assert back[x] == 0;
    }
  }

  lemma {:induction false} CopiesSize(x: Row, n: nat)
    ensures |Copies(x, n)| == n
  {
    if n > 0 {
      CopiesSize(x, n - 1);
      assert Copies(x, n) == Copies(x, n - 1) + multiset{x};
    } else {
      assert Copies(x, 0) == multiset{};
    }
  }

  lemma OnlyCopiesHit(m: multiset<Row>, a: Row, b: Row, k: nat)
    requires k < m[b]
    ensures m - multiset{b} + multiset{a} - (Copies(b, k) + multiset{a}) + Copies(b, k + 1) == m
  {
    var rest := m - multiset{b};
    assert rest + multiset{a} - (Copies(b, k) + multiset{a}) == rest - Copies(b, k);
    assert forall x :: (rest - Copies(b, k) + Copies(b, k + 1))[x] == m[x];
  }

  lemma OtherRowHit(m': multiset<Row>, m: multiset<Row>, a: Row, b: Row, hit: multiset<Row>, x: Row)
    requires b in m && m' == m - multiset{b} + multiset{a}
    requires a in hit && hit <= m'
    requires x in hit - multiset{a} && x != b
    ensures m' - hit + Copies(b, |hit|) != m
  {
    var back := m' - hit + Copies(b, |hit|);
    assert hit[x] == (hit - multiset{a})[x] + (if x == a then 1 else 0);
    assert m'[x] == m[x] + (if x == a then 1 else 0);
    assert back[x] == m'[x] - hit[x];
    assert back[x] < m[x];
  }

  lemma NoOtherRowHit(m: multiset<Row>, a: Row, b: Row, hit: multiset<Row>) returns (k: nat)
    requires b in m && a in hit && hit <= m - multiset{b} + multiset{a}
    requires forall x :: x in hit - multiset{a} ==> x == b
    ensures k < m[b] && hit == Copies(b, k) + multiset{a} && |hit| == k + 1
  {
    var others := hit - multiset{a};
    k := others[b];
    assert hit == others + multiset{a};
    assert others == Copies(b, k);
    CopiesSize(b, k);
    assert hit[b] <= (m - multiset{b} + multiset{a})[b];
    assert k < m[b];
  }

  // Replacing the selected rows hit by copies of b brings m back exactly when, besides a, only b was hit.
  lemma OnlyOldHitRestores(m: multiset<Row>, a: Row, b: Row, hit: multiset<Row>)
    requires b in m && a in hit && hit <= m - multiset{b} + multiset{a}
    requires forall x :: x in hit - multiset{a} ==> x == b
    ensures m - multiset{b} + multiset{a} - hit + Copies(b, |hit|) == m
  {
    var k := NoOtherRowHit(m, a, b, hit);
    OnlyCopiesHit(m, a, b, k);
  }

  lemma OtherHitSpoils(m: multiset<Row>, a: Row, b: Row, hit: multiset<Row>, x: Row)
    requires b in m && a in hit && hit <= m - multiset{b} + multiset{a}
    requires x in hit - multiset{a} && x != b
    ensures m - multiset{b} + multiset{a} - hit + Copies(b, |hit|) != m
  {
    OtherRowHit(m - multiset{b} + multiset{a}, m, a, b, hit, x);
  }

  lemma CopiesRestoreIff(m: multiset<Row>, a: Row, b: Row, hit: multiset<Row>)
    requires b in m && a in hit && hit <= m - multiset{b} + multiset{a}
    ensures m - multiset{b} + multiset{a} - hit + Copies(b, |hit|) == m <==> forall x :: x in hit - multiset{a} ==> x == b
  {
    if x :| x in hit - multiset{a} && x != b {
      OtherHitSpoils(m, a, b, hit, x);
    } else {
      OnlyOldHitRestores(m, a, b, hit);
    }
  }

  lemma UndoUpdateIff(defs: Definitions, m: multiset<Row>, rc: RowChange)
    requires Clean(defs, rc) && rc.action.Update? && RowOf(rc.before) in m
    ensures RowsReversed(defs, RowsApplied(m, rc), rc) == m <==> Reversible(defs, m, rc)
  {
    var a, b := RowOf(rc.after), RowOf(rc.before);
    SelectsAfter(defs, rc);
    var hit := Selected(defs, rc, m - multiset{b} + multiset{a});
    CopiesRestoreIff(m, a, b, hit);
    assert forall x :: x in hit - multiset{a} <==> x in m - multiset{b} && SelectedBy(defs, rc, x);
  }

  lemma PutBack(s: State, t: TableId, v: multiset<Row>, w: multiset<Row>)
    requires t in s
    ensures s[t := v][t := w] == s <==> w == s[t]
  {
    assert s[t := v][t := w][t] == w;
    if w == s[t] { assert s[t := v][t := w] == s; }
  }

  /** One undo statement restores the state before its row change exactly when no row besides the changed
      one is selected by its WHERE clause (or, for an update, only rows already equal to the old image). */
  lemma ReversesIff(defs: Definitions, s: State, rc: RowChange)
    requires Clean(defs, rc) && CanApply(s, rc)
    ensures Execute(defs, Apply(s, rc), Reversal(defs, rc)) == Some(s) <==> Reversible(defs, s[TableOf(rc)], rc)
  {
    var m := s[TableOf(rc)];
    var m' := RowsApplied(m, rc);
    ReversalRows(defs, Apply(s, rc), rc);
    PutBack(s, TableOf(rc), m', RowsReversed(defs, m', rc));
    match rc.action
    case Delete => assert RowsReversed(defs, m', rc) == m;
    case Insert => UndoInsertIff(defs, m, rc);
    case Update => UndoUpdateIff(defs, m, rc);
  }

  /** Unique keys after the change make it reversible. */
  lemma KeyedIsReversible(defs: Definitions, s: State, rc: RowChange)
    requires Clean(defs, rc) && CanApply(s, rc)
    requires Keyed(defs[TableOf(rc)], Apply(s, rc)[TableOf(rc)])
    ensures Reversible(defs, s[TableOf(rc)], rc)
  {
    var m, a := s[TableOf(rc)], RowOf(rc.after);
    var m' := Apply(s, rc)[TableOf(rc)];
    if !rc.action.Delete? {
      var rest := if rc.action.Insert? then m else m - multiset{RowOf(rc.before)};
      forall x | x in rest ensures !SelectedBy(defs, rc, x) {
        SelectsByKey(defs, rc, x);
        assert x in m' && a in m';
        assert x == a ==> m'[a] >= 2;
      }
    }
  }

  // A keyless table with the single column c, and the insertion of n into it.
  function Keyless(t: TableId, c: string): Definitions {
    map[t := TableSchema([c], [])]
  }

  function Inserted(t: TableId, n: int): RowChange {
    RowChange(t.0, t.1, Insert, [], [Int(n)], [])
  }

  lemma KeylessClean(t: TableId, c: string, n: int)
    ensures Clean(Keyless(t, c), Inserted(t, n)) && SelectedBy(Keyless(t, c), Inserted(t, n), RowOf([Int(n)]))
  {
    var idxs: seq<nat> := [];
    assert Usable([c], idxs, [Int(n)]) == ([], []);
    SelectsAfter(Keyless(t, c), Inserted(t, n));
  }

  /** A second equal row inserted into a keyless table: undoing it removes the first one too. */
  lemma DuplicateLost(t: TableId, c: string, n: int)
    ensures var defs, rc, s := Keyless(t, c), Inserted(t, n), map[t := multiset{RowOf([Int(n)])}];
      Clean(defs, rc) && CanApply(s, rc) && !Reversible(defs, s[t], rc)
      && Execute(defs, Apply(s, rc), Reversal(defs, rc)) == Some(s[t := multiset{}])
  {
    var defs, rc, x := Keyless(t, c), Inserted(t, n), RowOf([Int(n)]);
    var s: State := map[t := multiset{x}];
    KeylessClean(t, c, n);
    assert x in s[t];
    var m := RowsApplied(s[t], rc);
    ReversalRows(defs, Apply(s, rc), rc);
    assert m == multiset{x, x};
    assert forall y :: Selected(defs, rc, m)[y] == m[y];
    assert RowsReversed(defs, m, rc) == multiset{};
    PutTwice(s, t, m, multiset{});
  }

  // ---------- one transaction ----------

  predicate AllClean(defs: Definitions, rows: seq<RowChange>) {
    forall i :: 0 <= i < |rows| ==> Clean(defs, rows[i])
  }

  // Undo statements, last change first.
  function Reversals(defs: Definitions, rows: seq<RowChange>): (qs: seq<Sql>)
    requires AllClean(defs, rows)
    ensures |qs| == |rows|
  {
    if rows == [] then [] else Reversals(defs, rows[1..]) + [Reversal(defs, rows[0])]
  }

  // The changes can be applied in turn, each reversible in the state it meets.
  ghost predicate Undoable(defs: Definitions, s: State, rows: seq<RowChange>): (u: bool)
    ensures u ==> Runs(s, rows) && AllClean(defs, rows)
  {
    rows == [] ||
    (Clean(defs, rows[0]) && CanApply(s, rows[0]) && Reversible(defs, s[TableOf(rows[0])], rows[0])
      && (assert forall i :: 0 < i < |rows| ==> rows[i] == rows[1..][i - 1]; Undoable(defs, Apply(s, rows[0]), rows[1..])))
  }

  lemma {:induction false} ExecuteAppend(defs: Definitions, s: State, ps: seq<Sql>, qs: seq<Sql>)
    ensures ExecuteAll(defs, s, ps + qs) ==
      match ExecuteAll(defs, s, ps) case None => None case Some(s') => ExecuteAll(defs, s', qs)
  {
    if ps == [] {
      assert ps + qs == qs;
    } else {
      assert (ps + qs)[1..] == ps[1..] + qs;
      match Execute(defs, s, ps[0]) {
        case None =>
        case Some(s') => ExecuteAppend(defs, s', ps[1..], qs);
      }
    }
  }

  lemma {:induction false} ReversalsRestore(defs: Definitions, s: State, rows: seq<RowChange>)
    requires Undoable(defs, s, rows)
    ensures ExecuteAll(defs, ApplyAll(s, rows), Reversals(defs, rows)) == Some(s)
  {
    if rows != [] {
      var s1 := Apply(s, rows[0]);
      ReversalsRestore(defs, s1, rows[1..]);
      ExecuteAppend(defs, ApplyAll(s, rows), Reversals(defs, rows[1..]), [Reversal(defs, rows[0])]);
      ReversesIff(defs, s, rows[0]);
      assert [Reversal(defs, rows[0])][1..] == [];
    }
  }

  lemma {:induction false} KeyedRunIsReversible(defs: Definitions, s: State, rows: seq<RowChange>)
    requires AllClean(defs, rows) && Runs(s, rows) && StaysKeyed(defs, s, rows)
    ensures Undoable(defs, s, rows)
  {
    if rows != [] {
      KeyedIsReversible(defs, s, rows[0]);
      KeyedRunIsReversible(defs, Apply(s, rows[0]), rows[1..]);
    }
  }

  // ---------- from the generator's output to its meaning ----------

  // The schema the generator was given for rc is the table's real definition.
  predicate SchemaAgrees(defs: Definitions, schema: map<string, TableSchema>, rc: RowChange) {
    var key := DottedKey(rc.schema, rc.table);
    TableOf(rc) in defs && Distinct(defs[TableOf(rc)].columns) &&
    (key in schema ==> schema[key] == defs[TableOf(rc)]) &&
    ColumnNames(rc, defs[TableOf(rc)]) == defs[TableOf(rc)].columns
  }

  predicate Successful(st: Statement) {
    st.sql != "" && st.warnings == []
  }

  lemma SuccessfulMeans(
      defs: Definitions, schema: map<string, TableSchema>, rc: RowChange, txId: string, order: int, max: int)
    requires SchemaAgrees(defs, schema, rc) && PrintableImages(rc)
    requires Successful(UndoStatement(rc, txId, order, schema, max))
    ensures Clean(defs, rc)
    ensures ReadSql(UndoStatement(rc, txId, order, schema, max).sql) == Some(Reversal(defs, rc))
  {
    var def := defs[TableOf(rc)];
    StatementRoundTrip(rc, def.columns, def.primaryKey);
  }

  predicate Reads(st: Statement, q: Sql) {
    st.sql != "" && ReadSql(st.sql) == Some(q)
  }

  predicate ReadsAs(plan: seq<Statement>, qs: seq<Sql>) {
    |plan| == |qs| && forall k :: 0 <= k < |plan| ==> Reads(plan[k], qs[k])
  }

  lemma {:induction false} ExecuteRead(defs: Definitions, s: State, plan: seq<Statement>, qs: seq<Sql>)
    requires ReadsAs(plan, qs)
    ensures ExecuteText(defs, s, plan) == ExecuteAll(defs, s, qs)
  {
    if plan != [] {
      match Execute(defs, s, qs[0]) {
        case None =>
        case Some(s') => ExecuteRead(defs, s', plan[1..], qs[1..]);
      }
    }
  }

  predicate Suitable(defs: Definitions, schema: map<string, TableSchema>, rows: seq<RowChange>) {
    forall i :: 0 <= i < |rows| ==> SchemaAgrees(defs, schema, rows[i]) && PrintableImages(rows[i])
  }

  lemma ReadsTogether(plan: seq<Statement>, qs: seq<Sql>, plan': seq<Statement>, qs': seq<Sql>)
    requires ReadsAs(plan, qs) && ReadsAs(plan', qs')
    ensures ReadsAs(plan + plan', qs + qs')
  {
    forall k | 0 <= k < |plan| + |plan'| ensures Reads((plan + plan')[k], (qs + qs')[k]) {
      if k < |plan| {
        assert Reads(plan[k], qs[k]);
      } else {
        assert Reads(plan'[k - |plan|], qs'[k - |plan|]);
      }
    }
  }

  lemma ReversalsMore(defs: Definitions, rows: seq<RowChange>, i: nat)
    requires i < |rows| && Clean(defs, rows[i]) && AllClean(defs, rows[i + 1..])
    ensures AllClean(defs, rows[i..]) && Reversals(defs, rows[i..]) == Reversals(defs, rows[i + 1..]) + [Reversal(defs, rows[i])]
  {
    var tail := rows[i..];
    assert tail[0] == rows[i] && tail[1..] == rows[i + 1..];
    assert forall j :: 0 < j < |tail| ==> tail[j] == rows[i + 1..][j - 1];
  }

  lemma AllSuccessful(rest: seq<Statement>, last: Statement)
    requires forall st :: st in rest + [last] ==> Successful(st)
    ensures Successful(last) && forall st :: st in rest ==> Successful(st)
  {
    assert last in rest + [last];
    assert forall st :: st in rest ==> st in rest + [last];
  }

  lemma {:induction false} UndoFromMeans(
      defs: Definitions, schema: map<string, TableSchema>, rows: seq<RowChange>, i: nat, txId: string, max: int)
    requires i <= |rows| && Suitable(defs, schema, rows)
    requires forall st :: st in UndoFrom(rows, i, txId, schema, max) ==> Successful(st)
    ensures AllClean(defs, rows[i..])
    ensures ReadsAs(UndoFrom(rows, i, txId, schema, max), Reversals(defs, rows[i..]))
    decreases |rows| - i
  {
    if i < |rows| {
      var last := UndoStatement(rows[i], txId, |rows| - 1 - i, schema, max);
      var rest := UndoFrom(rows, i + 1, txId, schema, max);
      AllSuccessful(rest, last);
      UndoFromMeans(defs, schema, rows, i + 1, txId, max);
      SuccessfulMeans(defs, schema, rows[i], txId, |rows| - 1 - i, max);
      ReversalsMore(defs, rows, i);
      ReadsTogether(rest, Reversals(defs, rows[i + 1..]), [last], [Reversal(defs, rows[i])]);
    }
  }

  lemma PlanMeans(defs: Definitions, schema: map<string, TableSchema>, tx: Transaction, max: int)
    requires Suitable(defs, schema, tx.statements)
    requires forall st :: st in UndoPlan(tx, schema, max) ==> Successful(st)
    ensures AllClean(defs, tx.statements)
    ensures ReadsAs(UndoPlan(tx, schema, max), Reversals(defs, tx.statements))
  {
    UndoFromMeans(defs, schema, tx.statements, 0, tx.txId, Limit(max));
    assert tx.statements[0..] == tx.statements;
  }

  /** If every statement of a transaction's plan was generated without a warning, and keys are unique in
      every state the transaction passes through, executing the plan's text after the transaction restores
      exactly the state before it. */
  lemma TransactionUndone(defs: Definitions, schema: map<string, TableSchema>, tx: Transaction, max: int, s: State)
    requires Suitable(defs, schema, tx.statements)
    requires forall st :: st in UndoPlan(tx, schema, max) ==> Successful(st)
    requires Runs(s, tx.statements) && StaysKeyed(defs, s, tx.statements)
    ensures ExecuteText(defs, ApplyAll(s, tx.statements), UndoPlan(tx, schema, max)) == Some(s)
  {
    PlanMeans(defs, schema, tx, max);
    KeyedRunIsReversible(defs, s, tx.statements);
    ReversalsRestore(defs, s, tx.statements);
    ExecuteRead(defs, ApplyAll(s, tx.statements), UndoPlan(tx, schema, max), Reversals(defs, tx.statements));
  }
}
