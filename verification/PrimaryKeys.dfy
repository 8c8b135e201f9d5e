/**
 Undoing on a server that enforces primary keys: a statement that would give two rows of a table one primary key
 is an error. The plan then runs through and restores the tables exactly when the replay does without ever
 putting a second row under a primary key.
 */
module PrimaryKeys {
  import opened Base
  import opened Values
  import opened SqlText
  import opened Generator
  import opened Database
  import opened Undo
  import opened Flashback
  import opened Overlap

  // ---------- execution with enforced primary keys ----------

  ghost predicate Accepts(defs: Definitions, t: TableId, m: multiset<Row>) {
    t in defs && defs[t].primaryKey != [] ==> Keyed(defs[t], m)
  }

  ghost predicate PrimaryKeyed(defs: Definitions, s: State) {
    forall t :: t in s ==> Accepts(defs, t, s[t])
  }

  ghost function Checked(defs: Definitions, s: State, q: Sql): Option<State> {
    match Execute(defs, s, q)
    case None => None
    case Some(s') => if Accepts(defs, Id(q), s'[Id(q)]) then Some(s') else None
  }

  ghost function CheckedAll(defs: Definitions, s: State, qs: seq<Sql>): Option<State> {
    if qs == [] then Some(s)
    else match Checked(defs, s, qs[0])
      case None => None
      case Some(s') => CheckedAll(defs, s', qs[1..])
  }

  ghost function CheckedText(defs: Definitions, s: State, plan: seq<Statement>): Option<State> {
    if plan == [] then Some(s)
    else if plan[0].sql == "" then CheckedText(defs, s, plan[1..])
    else match ReadSql(plan[0].sql)
      case None => None
      case Some(q) =>
        match Checked(defs, s, q)
        case None => None
        case Some(s') => CheckedText(defs, s', plan[1..])
  }

  // ---------- the replay ----------

  // After its undo statement, the primary key rc's old row went back under holds more than one row.
  predicate Crowded(defs: Definitions, c: Contents, rc: RowChange) {
    !rc.action.Insert? && TableOf(rc) in defs && defs[TableOf(rc)].primaryKey != [] && |Content(c, BeforeKey(defs, rc))| > 1
  }

  function CheckedReplay(defs: Definitions, c: Contents, order: seq<RowChange>): Option<Contents>
    decreases |order|
  {
    if order == [] then Some(c)
    else if Crowded(defs, Undone(defs, c, order[0]), order[0]) then None
    else CheckedReplay(defs, Undone(defs, c, order[0]), order[1..])
  }

  predicate CheckedReplayRestores(defs: Definitions, rows: seq<RowChange>, groups: seq<seq<RowChange>>) {
    CheckedReplay(defs, LastContents(defs, map[], rows), PlanOrder(groups)) == Some(FirstContents(defs, rows))
  }

  // ---------- one statement ----------

  lemma TwoRows(u: multiset<Row>) returns (x: Row, y: Row)
    requires |u| > 1
    ensures x in u && y in u && (x == y ==> u[x] > 1)
  {
    x :| x in u;
    var rest := u - multiset{x};
    assert |rest| == |u| - 1;
    y :| y in rest;
    assert rest[y] > 0;
  }

  lemma CrowdedBreaks(defs: Definitions, t: TableId, m: multiset<Row>, b: Row, u: multiset<Row>)
    requires t in defs && |b| == |defs[t].columns| && |u| > 1
    requires forall x :: u[x] == if KeyIn(defs, t, x) == KeyIn(defs, t, b) then m[x] else 0
    ensures !Keyed(defs[t], m)
  {
    var x, y := TwoRows(u);
    assert u[x] > 0 && u[y] > 0;
    SameKey(defs, t, x, b);
    SameKey(defs, t, y, b);
    assert SameAt(KeyPositions(defs[t]), x, y);
    assert x in m && y in m;
  }

  lemma AtMostOne(u: multiset<Row>, x: Row, y: Row)
    requires |u| <= 1 && x in u && y in u
    ensures x == y && u[x] == 1
  {
    var rest := u - multiset{x};
    assert |rest| == |u| - 1;
    assert rest == multiset{};
    assert u[x] == rest[x] + 1 && (x != y ==> u[y] == rest[y]);
  }

  lemma SingleKeeps(defs: Definitions, t: TableId, m: multiset<Row>, m': multiset<Row>, b: Row, u: multiset<Row>)
    requires t in defs && |b| == |defs[t].columns| && Keyed(defs[t], m) && |u| <= 1
    requires forall x :: u[x] == if KeyIn(defs, t, x) == KeyIn(defs, t, b) then m'[x] else 0
    requires forall x :: KeyIn(defs, t, x) != KeyIn(defs, t, b) ==> m'[x] <= m[x]
    ensures Keyed(defs[t], m')
  {
    forall x | x in m' ensures m'[x] == 1 {
      if KeyIn(defs, t, x) == KeyIn(defs, t, b) {
        assert u[x] == m'[x];
        AtMostOne(u, x, x);
      } else {
        assert m'[x] <= m[x];
        assert x in m;
      }
    }
    forall x, y | x in m' && y in m' && SameAt(KeyPositions(defs[t]), x, y) ensures x == y {
      SameKey(defs, t, x, b);
      SameKey(defs, t, y, b);
      if KeyIn(defs, t, x) == KeyIn(defs, t, b) {
        assert SameAt(KeyPositions(defs[t]), y, b);
        assert u[x] == m'[x] && u[y] == m'[y];
        AtMostOne(u, x, y);
      } else {
        assert KeyIn(defs, t, y) != KeyIn(defs, t, b) by {
          if KeyIn(defs, t, y) == KeyIn(defs, t, b) { assert SameAt(KeyPositions(defs[t]), x, b); }
        }
        assert m'[x] <= m[x] && m'[y] <= m[y];
        assert x in m && y in m;
      }
    }
  }

  // Undo statements only ever add rows under the key of the old row.
  lemma AddsUnderOldKey(defs: Definitions, m: multiset<Row>, rc: RowChange, x: Row)
    requires Clean(defs, rc) && (rc.action.Insert? || KeyIn(defs, TableOf(rc), x) != BeforeKey(defs, rc))
    ensures RowsReversed(defs, m, rc)[x] <= m[x]
  {
    assert !rc.action.Insert? ==> x != RowOf(rc.before);
  }

  lemma FewerKeyed(def: TableSchema, m: multiset<Row>, m': multiset<Row>)
    requires Keyed(def, m) && forall x :: m'[x] <= m[x]
    ensures Keyed(def, m')
  {
    forall x | x in m' ensures x in m && m'[x] == 1 { assert 0 < m'[x] <= m[x]; }
  }

  // In a table with a primary key, the statement is accepted unless it crowds the old row's key.
  lemma KeptUnlessCrowded(defs: Definitions, s: State, c: Contents, rc: RowChange)
    requires Clean(defs, rc) && Covers(defs, c, rc) && Described(defs, s, c) && TableOf(rc) in s
    requires !rc.action.Insert? && Keyed(defs[TableOf(rc)], s[TableOf(rc)])
    ensures Keyed(defs[TableOf(rc)], RowsReversed(defs, s[TableOf(rc)], rc))
      <==> |Content(Undone(defs, c, rc), BeforeKey(defs, rc))| <= 1
  {
    var t, b, m, c' := TableOf(rc), RowOf(rc.before), s[TableOf(rc)], Undone(defs, c, rc);
    var m' := RowsReversed(defs, m, rc);
    TouchedIn(defs, c, rc);
    UndoneDescribed(defs, s, c, rc);
    var u := c'[BeforeKey(defs, rc)];
    forall x ensures u[x] == if KeyIn(defs, t, x) == KeyIn(defs, t, b) then m'[x] else 0 {
      DescribedAt(defs, Reverse(defs, s, rc), c', BeforeKey(defs, rc), x);
    }
    forall x | KeyIn(defs, t, x) != KeyIn(defs, t, b) ensures m'[x] <= m[x] {
      AddsUnderOldKey(defs, m, rc, x);
    }
    if |u| <= 1 { SingleKeeps(defs, t, m, m', b, u); } else { CrowdedBreaks(defs, t, m', b, u); }
  }

  lemma AcceptedUnlessCrowded(defs: Definitions, s: State, c: Contents, rc: RowChange)
    requires Clean(defs, rc) && Covers(defs, c, rc) && Described(defs, s, c) && TableOf(rc) in s && PrimaryKeyed(defs, s)
    ensures Accepts(defs, TableOf(rc), RowsReversed(defs, s[TableOf(rc)], rc)) <==> !Crowded(defs, Undone(defs, c, rc), rc)
  {
    var t, m := TableOf(rc), s[TableOf(rc)];
    if defs[t].primaryKey != [] {
      assert Accepts(defs, t, m);
      if rc.action.Insert? {
        forall x ensures RowsReversed(defs, m, rc)[x] <= m[x] { AddsUnderOldKey(defs, m, rc, x); }
        FewerKeyed(defs[t], m, RowsReversed(defs, m, rc));
      } else {
        KeptUnlessCrowded(defs, s, c, rc);
      }
    }
  }

  lemma PutPrimaryKeyed(defs: Definitions, s: State, t: TableId, m: multiset<Row>)
    requires PrimaryKeyed(defs, s) && Accepts(defs, t, m)
    ensures PrimaryKeyed(defs, s[t := m])
  {
    var s' := s[t := m];
    forall t' | t' in s' ensures Accepts(defs, t', s'[t']) {
      assert t' != t ==> t' in s;
    }
  }

  lemma CheckedIs(defs: Definitions, s: State, rc: RowChange)
    requires Clean(defs, rc) && TableOf(rc) in s
    ensures var m := RowsReversed(defs, s[TableOf(rc)], rc);
      Checked(defs, s, Reversal(defs, rc)) == if Accepts(defs, TableOf(rc), m) then Some(s[TableOf(rc) := m]) else None
  {
    ReversalRows(defs, s, rc);
    assert Id(Reversal(defs, rc)) == TableOf(rc);
  }

  lemma CheckedFirst(defs: Definitions, s: State, c: Contents, rc: RowChange)
    requires Clean(defs, rc) && Covers(defs, c, rc) && Described(defs, s, c) && PrimaryKeyed(defs, s)
    ensures Checked(defs, s, Reversal(defs, rc)).Some? <==> !Crowded(defs, Undone(defs, c, rc), rc)
    ensures Checked(defs, s, Reversal(defs, rc)).Some? ==> PrimaryKeyed(defs, Checked(defs, s, Reversal(defs, rc)).value)
  {
    TouchedTable(defs, s, c, rc);
    CheckedIs(defs, s, rc);
    AcceptedUnlessCrowded(defs, s, c, rc);
    if Accepts(defs, TableOf(rc), RowsReversed(defs, s[TableOf(rc)], rc)) {
      PutPrimaryKeyed(defs, s, TableOf(rc), RowsReversed(defs, s[TableOf(rc)], rc));
    }
  }

  // ---------- a plan ----------

  lemma {:induction false} CheckedDescribed(defs: Definitions, s: State, c: Contents, qs: seq<Sql>, order: seq<RowChange>)
    requires UndoOf(defs, qs, order) && CoversAll(defs, c, order) && Described(defs, s, c) && PrimaryKeyed(defs, s)
    ensures CheckedAll(defs, s, qs) == if CheckedReplay(defs, c, order).Some? then ExecuteAll(defs, s, qs) else None
    ensures CheckedReplay(defs, c, order).Some? ==> CheckedReplay(defs, c, order).value == Replayed(defs, c, order)
    decreases |order|
  {
    if order != [] {
      UndoRest(defs, qs, order);
      CoversRest(defs, c, c, order);
      CheckedFirst(defs, s, c, order[0]);
      var s1 := ReplayFirst(defs, s, c, order[0]);
      if !Crowded(defs, Undone(defs, c, order[0]), order[0]) {
        CoversRest(defs, c, Undone(defs, c, order[0]), order);
        CheckedDescribed(defs, s1, Undone(defs, c, order[0]), qs[1..], order[1..]);
      }
    }
  }

  lemma {:induction false} EndKeyed(defs: Definitions, s: State, rows: seq<RowChange>)
    requires Runs(s, rows) && AllKeyed(defs, s) && StaysKeyed(defs, s, rows)
    ensures PrimaryKeyed(defs, ApplyAll(s, rows))
    decreases |rows|
  {
    if rows != [] {
      KeyedNext(defs, s, rows);
      EndKeyed(defs, Apply(s, rows[0]), rows[1..]);
    }
  }

  lemma CheckedIff(defs: Definitions, s: State, end: State, first: Contents, last: Contents, qs: seq<Sql>, order: seq<RowChange>)
    requires UndoOf(defs, qs, order) && CoversAll(defs, last, order) && PrimaryKeyed(defs, end)
    requires Described(defs, s, first) && Described(defs, end, last) && first.Keys == last.Keys && AgreeOff(defs, s, end, last.Keys)
    ensures CheckedAll(defs, end, qs) == Some(s) <==> CheckedReplay(defs, last, order) == Some(first)
    ensures CheckedAll(defs, end, qs).Some? <==> CheckedReplay(defs, last, order).Some?
    ensures CheckedReplay(defs, last, order) == Some(first) ==> Replayed(defs, last, order) == first
  {
    ReplayIff(defs, s, end, first, last, qs, order);
    CheckedDescribed(defs, end, last, qs, order);
    var s' := ReplayDescribed(defs, end, last, qs, order);
  }

  /** With primary keys enforced, undoing the changes of groups after rows runs without an error and restores the
      tables exactly when the replay restores the contents without crowding a primary key. */
  lemma CheckedUndoneIff(defs: Definitions, s: State, rows: seq<RowChange>, groups: seq<seq<RowChange>>)
    requires forall g :: 0 <= g < |groups| ==> AllClean(defs, groups[g])
    requires forall rc :: rc in Flatten(groups) ==> rc in rows
    requires AllClean(defs, rows) && Runs(s, rows) && AllKeyed(defs, s) && StaysKeyed(defs, s, rows)
    ensures CheckedAll(defs, ApplyAll(s, rows), AllReversals(defs, groups)) == Some(s) <==> CheckedReplayRestores(defs, rows, groups)
    ensures CheckedAll(defs, ApplyAll(s, rows), AllReversals(defs, groups)).Some?
      <==> CheckedReplay(defs, LastContents(defs, map[], rows), PlanOrder(groups)).Some?
    ensures CheckedReplayRestores(defs, rows, groups) ==> KeptReplayRestores(defs, rows, groups)
  {
    var first, last := FirstContents(defs, rows), LastContents(defs, map[], rows);
    RunContents(defs, s, rows);
    PlanUndoes(defs, groups);
    OrderCovered(defs, last, rows, PlanOrder(groups));
    EndKeyed(defs, s, rows);
    CheckedIff(defs, s, ApplyAll(s, rows), first, last, AllReversals(defs, groups), PlanOrder(groups));
  }

  // ---------- the text ----------

  lemma {:induction false} CheckedRead(defs: Definitions, s: State, plan: seq<Statement>, qs: seq<Sql>)
    requires ReadsAs(plan, qs)
    ensures CheckedText(defs, s, plan) == CheckedAll(defs, s, qs)
  {
    if plan != [] {
      match Checked(defs, s, qs[0]) {
        case None =>
        case Some(s') => CheckedRead(defs, s', plan[1..], qs[1..]);
      }
    }
  }

  /** The same for the plan's text, truncated transactions included. */
  lemma TransactionsCheckedIff(
      defs: Definitions, schema: map<string, TableSchema>, txs: seq<Transaction>, full: seq<seq<RowChange>>, s: State)
    requires forall t :: 0 <= t < |txs| ==> Suitable(defs, schema, txs[t].statements)
    requires forall st :: st in Plan(txs, schema) ==> Successful(st)
    requires CutFrom(txs, full) && AllClean(defs, Flatten(full))
    requires Runs(s, Flatten(full)) && AllKeyed(defs, s) && StaysKeyed(defs, s, Flatten(full))
    ensures CheckedText(defs, ApplyAll(s, Flatten(full)), Plan(txs, schema)) == Some(s)
      <==> CheckedReplayRestores(defs, Flatten(full), Map(Rows, txs))
  {
    PlanReadsAs(defs, txs, schema);
    CutKept(txs, full);
    CheckedUndoneIff(defs, s, Flatten(full), Map(Rows, txs));
    CheckedRead(defs, ApplyAll(s, Flatten(full)), Plan(txs, schema), AllReversals(defs, Map(Rows, txs)));
  }

  // ---------- one transaction ----------

  lemma {:induction false} CheckedAppend(defs: Definitions, s: State, ps: seq<Sql>, qs: seq<Sql>)
    ensures CheckedAll(defs, s, ps + qs) ==
      match CheckedAll(defs, s, ps) case None => None case Some(s') => CheckedAll(defs, s', qs)
  {
    if ps == [] {
      assert ps + qs == qs;
    } else {
      assert (ps + qs)[1..] == ps[1..] + qs;
      match Checked(defs, s, ps[0]) {
        case None =>
        case Some(s') => CheckedAppend(defs, s', ps[1..], qs);
      }
    }
  }

  lemma CheckedInto(defs: Definitions, s: State, q: Sql, s': State)
    requires Execute(defs, s, q) == Some(s') && AllKeyed(defs, s')
    ensures CheckedAll(defs, s, [q]) == Some(s')
  {
    assert Checked(defs, s, q) == Some(s');
    assert [q][1..] == [];
  }

  lemma LastChecked(defs: Definitions, s: State, rc: RowChange)
    requires Clean(defs, rc) && CanApply(s, rc) && Reversible(defs, s[TableOf(rc)], rc) && AllKeyed(defs, s)
    ensures CheckedAll(defs, Apply(s, rc), [Reversal(defs, rc)]) == Some(s)
  {
    ReversesIff(defs, s, rc);
    CheckedInto(defs, Apply(s, rc), Reversal(defs, rc), s);
  }

  /** Undone last change first, one transaction never meets a primary key error. */
  lemma {:induction false} ReversalsChecked(defs: Definitions, s: State, rows: seq<RowChange>)
    requires Undoable(defs, s, rows) && AllKeyed(defs, s) && StaysKeyed(defs, s, rows)
    ensures CheckedAll(defs, ApplyAll(s, rows), Reversals(defs, rows)) == Some(s)
  {
    if rows != [] {
      KeyedNext(defs, s, rows);
      ReversalsChecked(defs, Apply(s, rows[0]), rows[1..]);
      CheckedAppend(defs, ApplyAll(s, rows), Reversals(defs, rows[1..]), [Reversal(defs, rows[0])]);
      LastChecked(defs, s, rows[0]);
    }
  }

  lemma TransactionChecked(defs: Definitions, schema: map<string, TableSchema>, tx: Transaction, max: int, s: State)
    requires Suitable(defs, schema, tx.statements)
    requires forall st :: st in UndoPlan(tx, schema, max) ==> Successful(st)
    requires Runs(s, tx.statements) && AllKeyed(defs, s) && StaysKeyed(defs, s, tx.statements)
    ensures CheckedText(defs, ApplyAll(s, tx.statements), UndoPlan(tx, schema, max)) == Some(s)
  {
    PlanMeans(defs, schema, tx, max);
    KeyedRunIsReversible(defs, s, tx.statements);
    ReversalsChecked(defs, s, tx.statements);
    CheckedRead(defs, ApplyAll(s, tx.statements), UndoPlan(tx, schema, max), Reversals(defs, tx.statements));
  }

  // ---------- a plan refused midway ----------

  lemma FourContents(defs: Definitions, d: RowChange, a: RowChange, k: Key)
    requires TouchesOnly(defs, d, k) && TouchesOnly(defs, a, k) && d.action.Delete? && a.action.Insert?
    ensures LastContents(defs, map[], [d, a, d, a]) == map[k := multiset{RowOf(a.after)}]
    ensures FirstContents(defs, [d, a, d, a]) == map[k := multiset{RowOf(d.before)}]
  {
    var e: multiset<Row>, f := multiset{}, multiset{RowOf(a.after)};
    OnlyKey(defs, d, k);
    OnlyKey(defs, a, k);
    TwoContents(defs, d, a, k);
    PutOne(k, e, f);
    PutOne(k, f, e);
    assert [d, a, d, a][1..] == [a, d, a] && [a, d, a][1..] == [d, a];
    assert LastContents(defs, map[], [d, a, d, a]) == LastContents(defs, map[] + Left(defs, d), [a, d, a]);
    assert LastContents(defs, Left(defs, d), [a, d, a]) == LastContents(defs, Left(defs, d) + Left(defs, a), [d, a]);
    LastPut(defs, d, a, k, f);
    assert FirstContents(defs, [a, d, a]) == FirstContents(defs, [d, a]) + Found(defs, a);
    assert FirstContents(defs, [d, a, d, a]) == FirstContents(defs, [a, d, a]) + Found(defs, d);
    PutOne(k, multiset{RowOf(d.before)}, e);
    PutOne(k, e, multiset{RowOf(d.before)});
  }

  lemma LastPut(defs: Definitions, d: RowChange, a: RowChange, k: Key, m: multiset<Row>)
    requires TouchesOnly(defs, d, k) && TouchesOnly(defs, a, k) && d.action.Delete? && a.action.Insert?
    ensures LastContents(defs, map[k := m], [d, a]) == map[k := multiset{RowOf(a.after)}]
  {
    var e: multiset<Row>, f := multiset{}, multiset{RowOf(a.after)};
    OnlyKey(defs, d, k);
    OnlyKey(defs, a, k);
    PutOne(k, m, e);
    PutOne(k, e, f);
    assert [d, a][1..] == [a] && [a][1..] == [];
    assert LastContents(defs, map[k := m], [d, a]) == LastContents(defs, map[k := m] + Left(defs, d), [a]);
    assert LastContents(defs, map[k := e], [a]) == LastContents(defs, map[k := e] + Left(defs, a), []);
  }

  lemma FourOrder(d: RowChange, a: RowChange)
    ensures Flatten([[d], [a], [d, a]]) == [d, a, d, a] && PlanOrder([[d], [a], [d, a]]) == [d, a, a, d]
  {
    var groups := [[d], [a], [d, a]];
    assert groups[1..] == [[a], [d, a]] && [[a], [d, a]][1..] == [[d, a]] && [[d, a]][1..] == [];
    assert Flatten([[d, a]]) == [d, a] + Flatten<RowChange>([]);
    assert Flatten([[a], [d, a]]) == [a] + Flatten([[d, a]]);
    BackwardsOne(d);
    BackwardsOne(a);
    assert [d, a][1..] == [a] && Backwards([d, a]) == Backwards([a]) + [d];
    assert PlanOrder([[d, a]]) == Backwards([d, a]) + PlanOrder([]);
    assert PlanOrder([[a], [d, a]]) == Backwards([a]) + PlanOrder([[d, a]]);
  }

  lemma FourReplayed(defs: Definitions, d: RowChange, a: RowChange, k: Key, m: multiset<Row>)
    requires TouchesOnly(defs, d, k) && TouchesOnly(defs, a, k) && d.action.Delete? && a.action.Insert?
    ensures Undone(defs, map[k := m], d) == map[k := m + multiset{RowOf(d.before)}]
    ensures Replayed(defs, map[k := m], [d, a, a, d]) == map[k := multiset{RowOf(d.before)}]
  {
    var e: multiset<Row>, b := multiset{}, RowOf(d.before);
    TwoReplayed(defs, d, a, k, m);
    TwoReplayed(defs, a, d, k, e);
    UndoneAlone(defs, d, k, m);
    UndoneAlone(defs, a, k, m + multiset{b});
    assert [d, a, a, d][1..] == [a, a, d] && [a, a, d][1..] == [a, d];
    assert Replayed(defs, map[k := m], [d, a, a, d]) == Replayed(defs, Undone(defs, map[k := m], d), [a, a, d]);
    assert Replayed(defs, map[k := m + multiset{b}], [a, a, d]) == Replayed(defs, map[k := e], [a, d]);
    assert e + multiset{b} == multiset{b};
  }

  lemma RestoresButCrowds(defs: Definitions, d: RowChange, a: RowChange, k: Key)
    requires TouchesOnly(defs, d, k) && TouchesOnly(defs, a, k) && d.action.Delete? && a.action.Insert?
    requires RowOf(d.before) == RowOf(a.after) && TableOf(d) in defs && defs[TableOf(d)].primaryKey != []
    ensures ReplayRestores(defs, [[d], [a], [d, a]])
    ensures CheckedReplay(defs, LastContents(defs, map[], [d, a, d, a]), PlanOrder([[d], [a], [d, a]])) == None
  {
    var v := RowOf(d.before);
    FourContents(defs, d, a, k);
    FourOrder(d, a);
    FourReplayed(defs, d, a, k, multiset{v});
    OnlyKey(defs, d, k);
    var c := Undone(defs, map[k := multiset{v}], d);
    assert Content(c, k) == multiset{v} + multiset{v} && |multiset{v} + multiset{v}| == 2;
    assert Crowded(defs, c, d);
    assert CheckedReplay(defs, map[k := multiset{v}], [d, a, a, d]) == None;
  }

  lemma ItemKeyed(t: TableId, c: string, n: int)
    ensures Keyed(ItemTable(t, c)[t], multiset{}) && Keyed(ItemTable(t, c)[t], multiset{RowOf([Int(n)])})
  {
  }

  lemma ItemReplaced(t: TableId, c: string, n: int, rows: seq<RowChange>)
    requires var s: State := map[t := multiset{RowOf([Int(n)])}];
      Runs(s, rows) && StaysKeyed(ItemTable(t, c), s, rows) && ApplyAll(s, rows) == s
    ensures var s: State := map[t := multiset{RowOf([Int(n)])}];
      var more := [ItemRemoved(t, n), ItemAdded(t, n)] + rows;
      Runs(s, more) && StaysKeyed(ItemTable(t, c), s, more) && ApplyAll(s, more) == s
  {
    var s: State := map[t := multiset{RowOf([Int(n)])}];
    var d, a, v := ItemRemoved(t, n), ItemAdded(t, n), RowOf([Int(n)]);
    var more := [d, a] + rows;
    ItemKeyed(t, c, n);
    assert more[1..] == [a] + rows && ([a] + rows)[1..] == rows;
    assert multiset{v} - multiset{v} == multiset{} && multiset{} + multiset{v} == multiset{v};
    var s1 := Apply(s, d);
    assert s1[t] == multiset{};
    assert Apply(s1, a) == s;
    assert Runs(s1, [a] + rows) && StaysKeyed(ItemTable(t, c), s1, [a] + rows) && ApplyAll(s1, [a] + rows) == s;
  }

  lemma ItemsRun(t: TableId, c: string, n: int)
    ensures var s: State := map[t := multiset{RowOf([Int(n)])}];
      var rows := [ItemRemoved(t, n), ItemAdded(t, n), ItemRemoved(t, n), ItemAdded(t, n)];
      Runs(s, rows) && StaysKeyed(ItemTable(t, c), s, rows) && ApplyAll(s, rows) == s && AllKeyed(ItemTable(t, c), s)
  {
    var d, a := ItemRemoved(t, n), ItemAdded(t, n);
    ItemReplaced(t, c, n, []);
    ItemReplaced(t, c, n, [d, a] + []);
    assert [d, a] + ([d, a] + []) == [d, a, d, a];
    ItemKeyed(t, c, n);
  }

  lemma RefusedWhenCrowded(defs: Definitions, s: State, rows: seq<RowChange>, groups: seq<seq<RowChange>>)
    requires forall g :: 0 <= g < |groups| ==> AllClean(defs, groups[g])
    requires rows == Flatten(groups) && AllClean(defs, rows)
    requires Runs(s, rows) && AllKeyed(defs, s) && StaysKeyed(defs, s, rows)
    requires ReplayRestores(defs, groups) && CheckedReplay(defs, LastContents(defs, map[], rows), PlanOrder(groups)) == None
    ensures ExecuteAll(defs, ApplyAll(s, rows), AllReversals(defs, groups)) == Some(s)
    ensures CheckedAll(defs, ApplyAll(s, rows), AllReversals(defs, groups)) == None
  {
    GroupsUndoneIff(defs, s, groups);
    CheckedUndoneIff(defs, s, rows, groups);
  }

  // Three transactions: item n is deleted, inserted, and deleted and inserted once more.
  function Swaps(t: TableId, n: int): (groups: seq<seq<RowChange>>)
    ensures Flatten(groups) == [ItemRemoved(t, n), ItemAdded(t, n), ItemRemoved(t, n), ItemAdded(t, n)]
  {
    var d, a := ItemRemoved(t, n), ItemAdded(t, n);
    FourOrder(d, a);
    [[d], [a], [d, a]]
  }

  lemma SwapsClean(t: TableId, c: string, n: int)
    ensures forall g :: 0 <= g < |Swaps(t, n)| ==> AllClean(ItemTable(t, c), Swaps(t, n)[g])
    ensures AllClean(ItemTable(t, c), Flatten(Swaps(t, n)))
  {
    ItemsClean(t, c, n);
  }

  lemma SwapsCrowd(t: TableId, c: string, n: int)
    ensures ReplayRestores(ItemTable(t, c), Swaps(t, n))
    ensures CheckedReplay(ItemTable(t, c), LastContents(ItemTable(t, c), map[], Flatten(Swaps(t, n))), PlanOrder(Swaps(t, n))) == None
  {
    var defs, d, a := ItemTable(t, c), ItemRemoved(t, n), ItemAdded(t, n);
    assert BeforeKey(defs, d) == AfterKey(defs, a);
    assert TouchesOnly(defs, d, BeforeKey(defs, d)) && TouchesOnly(defs, a, BeforeKey(defs, d));
    RestoresButCrowds(defs, d, a, BeforeKey(defs, d));
  }

  lemma SwapsRun(t: TableId, c: string, n: int)
    ensures var s: State := map[t := multiset{RowOf([Int(n)])}];
      Runs(s, Flatten(Swaps(t, n))) && AllKeyed(ItemTable(t, c), s) && StaysKeyed(ItemTable(t, c), s, Flatten(Swaps(t, n)))
  {
    ItemsRun(t, c, n);
  }

  /** Such a plan exists: an item deleted, inserted, and deleted and inserted once more by a third transaction
      is back after the plan where keys are not enforced, but a statement of the plan is refused where they are. */
  lemma RefusedMidway(t: TableId, c: string, n: int)
    ensures var defs, s, groups := ItemTable(t, c), map[t := multiset{RowOf([Int(n)])}], Swaps(t, n);
      (forall g :: 0 <= g < |groups| ==> AllClean(defs, groups[g]))
      && Runs(s, Flatten(groups)) && AllKeyed(defs, s) && StaysKeyed(defs, s, Flatten(groups))
      && ExecuteAll(defs, ApplyAll(s, Flatten(groups)), AllReversals(defs, groups)) == Some(s)
      && CheckedAll(defs, ApplyAll(s, Flatten(groups)), AllReversals(defs, groups)) == None
  {
    SwapsRun(t, c, n);
    SwapsClean(t, c, n);
    SwapsCrowd(t, c, n);
    RefusedWhenCrowded(ItemTable(t, c), map[t := multiset{RowOf([Int(n)])}], Flatten(Swaps(t, n)), Swaps(t, n));
  }
}
