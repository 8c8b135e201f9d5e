/**
 The flashback command's plan (cmd/agent/flashback.go): transactions in scan order, each undone last
 change first. For transactions that touch different keys the order does not matter.
 */
module Flashback {
  import opened Base
  import opened Values
  import opened SqlText
  import opened Generator
  import opened Database
  import opened Undo
  import opened SchemaCache

  // The rows a change adds or removes.
  predicate Touches(rc: RowChange, x: Row) {
    ((rc.action.Delete? || rc.action.Update?) && x == RowOf(rc.before)) ||
    ((rc.action.Insert? || rc.action.Update?) && x == RowOf(rc.after))
  }

  // The two changes touch no common key.
  ghost predicate Apart(defs: Definitions, rc1: RowChange, rc2: RowChange) {
    TableOf(rc1) == TableOf(rc2) && TableOf(rc1) in defs ==>
      forall x, y :: Touches(rc1, x) && Touches(rc2, y) ==>
        !SameAt(KeyPositions(defs[TableOf(rc1)]), x, y) && !SameAt(KeyPositions(defs[TableOf(rc1)]), y, x)
  }

  ghost predicate AllApart(defs: Definitions, rows1: seq<RowChange>, rows2: seq<RowChange>) {
    forall i, j :: 0 <= i < |rows1| && 0 <= j < |rows2| ==> Apart(defs, rows1[i], rows2[j])
  }

  // ---------- an undo statement commutes with a change it does not touch ----------

  lemma NotSelected(defs: Definitions, rc1: RowChange, rc2: RowChange, y: Row)
    requires Clean(defs, rc1) && !rc1.action.Delete?
    requires TableOf(rc1) == TableOf(rc2) && Apart(defs, rc1, rc2) && Touches(rc2, y)
    ensures !SelectedBy(defs, rc1, y)
  {
    assert Touches(rc1, RowOf(rc1.after));
    SelectsByKey(defs, rc1, y);
  }

  lemma SelectionUnaffectedAt(defs: Definitions, m: multiset<Row>, rc1: RowChange, rc2: RowChange, x: Row)
    requires Clean(defs, rc1) && Clean(defs, rc2) && !rc1.action.Delete?
    requires TableOf(rc1) == TableOf(rc2) && Apart(defs, rc1, rc2)
    ensures Selected(defs, rc1, RowsApplied(m, rc2))[x] == Selected(defs, rc1, m)[x]
  {
    if Touches(rc2, x) {
      NotSelected(defs, rc1, rc2, x);
    } else {
      assert RowsApplied(m, rc2)[x] == m[x];
    }
  }

  lemma SelectionUnaffected(defs: Definitions, m: multiset<Row>, rc1: RowChange, rc2: RowChange)
    requires Clean(defs, rc1) && Clean(defs, rc2) && !rc1.action.Delete?
    requires TableOf(rc1) == TableOf(rc2) && Apart(defs, rc1, rc2)
    ensures Selected(defs, rc1, RowsApplied(m, rc2)) == Selected(defs, rc1, m)
  {
    forall x ensures Selected(defs, rc1, RowsApplied(m, rc2))[x] == Selected(defs, rc1, m)[x] {
      SelectionUnaffectedAt(defs, m, rc1, rc2, x);
    }
  }

  // Taking out hit and putting in extra commutes with taking out b and putting in a, when b survives.
  lemma SwapEdits(m: multiset<Row>, hit: multiset<Row>, extra: multiset<Row>, out: multiset<Row>, a: multiset<Row>)
    requires hit <= m && out <= m - hit
    ensures m - out + a - hit + extra == m - hit + extra - out + a
    ensures out <= m - hit + extra
  {
  }

  // The rows an undo statement takes out of m, and the ones it puts in.
  ghost function Hit(defs: Definitions, m: multiset<Row>, rc: RowChange): multiset<Row>
    requires Clean(defs, rc)
  {
    if rc.action.Delete? then multiset{} else Selected(defs, rc, m)
  }

  ghost function Extra(rc: RowChange, hits: nat): multiset<Row> {
    match rc.action
    case Delete => multiset{RowOf(rc.before)}
    case Update => Copies(RowOf(rc.before), hits)
    case _ => multiset{}
  }

  // The rows a change takes out, and the ones it puts in.
  function Out(rc: RowChange): multiset<Row> {
    if rc.action.Delete? || rc.action.Update? then multiset{RowOf(rc.before)} else multiset{}
  }

  function In(rc: RowChange): multiset<Row> {
    if rc.action.Insert? || rc.action.Update? then multiset{RowOf(rc.after)} else multiset{}
  }

  lemma ReversedShape(defs: Definitions, m: multiset<Row>, rc: RowChange)
    requires Clean(defs, rc)
    ensures RowsReversed(defs, m, rc) == m - Hit(defs, m, rc) + Extra(rc, |Hit(defs, m, rc)|)
    ensures Hit(defs, m, rc) <= m
  {
  }

  lemma AppliedShape(m: multiset<Row>, rc: RowChange)
    ensures RowsApplied(m, rc) == m - Out(rc) + In(rc)
  {
  }

  lemma OutSurvives(defs: Definitions, m: multiset<Row>, rc1: RowChange, rc2: RowChange)
    requires Clean(defs, rc1) && Clean(defs, rc2)
    requires TableOf(rc1) == TableOf(rc2) && Apart(defs, rc1, rc2)
    requires Out(rc2) <= m
    ensures Out(rc2) <= m - Hit(defs, m, rc1)
    ensures Hit(defs, RowsApplied(m, rc2), rc1) == Hit(defs, m, rc1)
  {
    if !rc1.action.Delete? {
      SelectionUnaffected(defs, m, rc1, rc2);
      if !rc2.action.Insert? {
        NotSelected(defs, rc1, rc2, RowOf(rc2.before));
        assert Hit(defs, m, rc1)[RowOf(rc2.before)] == 0;
      }
    }
  }

  lemma ReversedCommutes(defs: Definitions, m: multiset<Row>, rc1: RowChange, rc2: RowChange)
    requires Clean(defs, rc1) && Clean(defs, rc2)
    requires TableOf(rc1) == TableOf(rc2) && Apart(defs, rc1, rc2)
    requires Out(rc2) <= m
    ensures Out(rc2) <= RowsReversed(defs, m, rc1)
    ensures RowsReversed(defs, RowsApplied(m, rc2), rc1) == RowsApplied(RowsReversed(defs, m, rc1), rc2)
  {
    var hit := Hit(defs, m, rc1);
    OutSurvives(defs, m, rc1, rc2);
    ReversedShape(defs, m, rc1);
    ReversedShape(defs, RowsApplied(m, rc2), rc1);
    AppliedShape(m, rc2);
    AppliedShape(RowsReversed(defs, m, rc1), rc2);
    SwapEdits(m, hit, Extra(rc1, |hit|), Out(rc2), In(rc2));
  }

  lemma StaysReversible(defs: Definitions, m: multiset<Row>, rc1: RowChange, rc2: RowChange)
    requires Clean(defs, rc1) && Clean(defs, rc2)
    requires TableOf(rc1) == TableOf(rc2) && Apart(defs, rc1, rc2)
    requires Reversible(defs, m, rc2)
    ensures Reversible(defs, RowsReversed(defs, m, rc1), rc2)
  {
    var m' := RowsReversed(defs, m, rc1);
    if !rc2.action.Delete? {
      assert Apart(defs, rc2, rc1);
      forall x | x in m' && SelectedBy(defs, rc2, x) ensures x in m && m'[x] <= m[x] {
        if Touches(rc1, x) { NotSelected(defs, rc2, rc1, x); }
      }
    }
  }

  // ---------- lifted to states, runs and plans ----------

  ghost function Reverse(defs: Definitions, s: State, rc: RowChange): State
    requires Clean(defs, rc) && TableOf(rc) in s
  {
    s[TableOf(rc) := RowsReversed(defs, s[TableOf(rc)], rc)]
  }

  lemma ReverseSwap(defs: Definitions, s: State, rc1: RowChange, rc2: RowChange)
    requires Clean(defs, rc1) && CanApply(s, rc2) && TableOf(rc1) in s
    requires TableOf(rc1) == TableOf(rc2)
    requires RowsReversed(defs, RowsApplied(s[TableOf(rc1)], rc2), rc1) == RowsApplied(RowsReversed(defs, s[TableOf(rc1)], rc1), rc2)
    ensures CanApply(Reverse(defs, s, rc1), rc2) ==> Reverse(defs, Apply(s, rc2), rc1) == Apply(Reverse(defs, s, rc1), rc2)
  {
    var t, v, w := TableOf(rc1), RowsApplied(s[TableOf(rc1)], rc2), RowsReversed(defs, s[TableOf(rc1)], rc1);
    assert Apply(s, rc2) == s[t := v];
    assert Reverse(defs, s, rc1) == s[t := w];
    PutTwice(s, t, v, RowsReversed(defs, v, rc1));
    PutTwice(s, t, w, RowsApplied(w, rc2));
  }

  lemma ReverseElsewhere(defs: Definitions, s: State, rc1: RowChange, rc2: RowChange)
    requires Clean(defs, rc1) && CanApply(s, rc2) && TableOf(rc1) in s
    requires TableOf(rc1) != TableOf(rc2)
    ensures CanApply(Reverse(defs, s, rc1), rc2)
    ensures Reverse(defs, Apply(s, rc2), rc1) == Apply(Reverse(defs, s, rc1), rc2)
  {
    PutSwap(s, TableOf(rc2), TableOf(rc1), RowsApplied(s[TableOf(rc2)], rc2), RowsReversed(defs, s[TableOf(rc1)], rc1));
  }

  lemma StepPastChange(defs: Definitions, s: State, rc1: RowChange, rc2: RowChange)
    requires Clean(defs, rc1) && Clean(defs, rc2) && Apart(defs, rc1, rc2)
    requires TableOf(rc1) in s && CanApply(s, rc2) && Reversible(defs, s[TableOf(rc2)], rc2)
    ensures var s' := Reverse(defs, s, rc1);
      CanApply(s', rc2) && Reversible(defs, s'[TableOf(rc2)], rc2)
      && Reverse(defs, Apply(s, rc2), rc1) == Apply(s', rc2)
  {
    if TableOf(rc1) == TableOf(rc2) {
      ReversedCommutes(defs, s[TableOf(rc1)], rc1, rc2);
      StaysReversible(defs, s[TableOf(rc1)], rc1, rc2);
      ReverseSwap(defs, s, rc1, rc2);
    } else {
      ReverseElsewhere(defs, s, rc1, rc2);
    }
  }

  // One step of StepPastRun, with the rest of the run already carried over.
  lemma StepPastFirst(defs: Definitions, s: State, s': State, rc1: RowChange, rows: seq<RowChange>)
    requires Clean(defs, rc1) && Undoable(defs, s, rows) && rows != []
    requires CanApply(s', rows[0]) && Reversible(defs, s'[TableOf(rows[0])], rows[0])
    requires Undoable(defs, Apply(s', rows[0]), rows[1..])
    requires TableOf(rc1) in ApplyAll(Apply(s, rows[0]), rows[1..])
    requires Reverse(defs, ApplyAll(Apply(s, rows[0]), rows[1..]), rc1) == ApplyAll(Apply(s', rows[0]), rows[1..])
    ensures Undoable(defs, s', rows) && TableOf(rc1) in ApplyAll(s, rows)
    ensures Reverse(defs, ApplyAll(s, rows), rc1) == ApplyAll(s', rows)
  {
  }

  // What the rest of the run is entitled to after its first change.
  lemma StepPastHead(defs: Definitions, s: State, s': State, rc1: RowChange, rows: seq<RowChange>) returns (s1: State, s1': State)
    requires Clean(defs, rc1) && TableOf(rc1) in s && Undoable(defs, s, rows) && rows != []
    requires Apart(defs, rc1, rows[0])
    requires s' == Reverse(defs, s, rc1)
    ensures CanApply(s, rows[0]) && s1 == Apply(s, rows[0]) && TableOf(rc1) in s1 && Undoable(defs, s1, rows[1..])
    ensures CanApply(s', rows[0]) && s1' == Apply(s', rows[0]) && Clean(defs, rows[0])
    ensures Reversible(defs, s'[TableOf(rows[0])], rows[0])
    ensures s1' == Reverse(defs, s1, rc1)
  {
    StepPastChange(defs, s, rc1, rows[0]);
    s1, s1' := Apply(s, rows[0]), Apply(s', rows[0]);
  }

  lemma {:induction false} StepPastRun(defs: Definitions, s: State, s': State, rc1: RowChange, rows: seq<RowChange>)
    requires Clean(defs, rc1) && TableOf(rc1) in s && Undoable(defs, s, rows)
    requires forall j :: 0 <= j < |rows| ==> Apart(defs, rc1, rows[j])
    requires s' == Reverse(defs, s, rc1)
    ensures Undoable(defs, s', rows) && TableOf(rc1) in ApplyAll(s, rows)
    ensures Reverse(defs, ApplyAll(s, rows), rc1) == ApplyAll(s', rows)
    decreases |rows|
  {
    if rows != [] {
      var s1, s1' := StepPastHead(defs, s, s', rc1, rows);
      StepPastRun(defs, s1, s1', rc1, rows[1..]);
      StepPastFirst(defs, s, s', rc1, rows);
    }
  }

  /** Undoing rows1 commutes with a later run that touches none of its keys: undone after that run, it
      leaves the state that run reaches from the undone state. */
  lemma {:induction false} PlanPastRun(defs: Definitions, s: State, rows1: seq<RowChange>, rows2: seq<RowChange>)
    requires AllClean(defs, rows1) && AllApart(defs, rows1, rows2)
    requires Undoable(defs, s, rows2)
    requires ExecuteAll(defs, s, Reversals(defs, rows1)).Some?
    ensures var s' := ExecuteAll(defs, s, Reversals(defs, rows1)).value;
      Undoable(defs, s', rows2)
      && ExecuteAll(defs, ApplyAll(s, rows2), Reversals(defs, rows1)) == Some(ApplyAll(s', rows2))
  {
    if rows1 != [] {
      var rc, rest := rows1[0], rows1[1..];
      ExecuteAppend(defs, s, Reversals(defs, rest), [Reversal(defs, rc)]);
      forall i, j | 0 <= i < |rest| && 0 <= j < |rows2| ensures Apart(defs, rest[i], rows2[j]) {
        assert Apart(defs, rows1[i + 1], rows2[j]);
      }
      PlanPastRun(defs, s, rest, rows2);
      var t := ExecuteAll(defs, s, Reversals(defs, rest)).value;
      ExecuteOne(defs, t, rc);
      ReversalRows(defs, t, rc);
      StepPastRun(defs, t, Reverse(defs, t, rc), rc, rows2);
      ReversalRows(defs, ApplyAll(t, rows2), rc);
      ExecuteAppend(defs, ApplyAll(s, rows2), Reversals(defs, rest), [Reversal(defs, rc)]);
      ExecuteOne(defs, ApplyAll(t, rows2), rc);
    }
  }

  lemma ExecuteOne(defs: Definitions, s: State, rc: RowChange)
    requires Clean(defs, rc)
    ensures ExecuteAll(defs, s, [Reversal(defs, rc)]) == Execute(defs, s, Reversal(defs, rc))
  {
    assert [Reversal(defs, rc)][1..] == [];
  }

  lemma {:induction false} ApplyAppend(s: State, rows1: seq<RowChange>, rows2: seq<RowChange>)
    requires Runs(s, rows1 + rows2)
    ensures Runs(s, rows1) && Runs(ApplyAll(s, rows1), rows2)
    ensures ApplyAll(s, rows1 + rows2) == ApplyAll(ApplyAll(s, rows1), rows2)
    decreases |rows1|
  {
    if rows1 == [] {
      assert rows1 + rows2 == rows2;
    } else {
      assert (rows1 + rows2)[1..] == rows1[1..] + rows2 && (rows1 + rows2)[0] == rows1[0];
      ApplyAppend(Apply(s, rows1[0]), rows1[1..], rows2);
    }
  }

  lemma HeadAndRest(rows1: seq<RowChange>, rows2: seq<RowChange>)
    requires rows1 != []
    ensures (rows1 + rows2)[0] == rows1[0] && (rows1 + rows2)[1..] == rows1[1..] + rows2
  {
  }

  lemma {:induction false} UndoableFront(defs: Definitions, s: State, rows1: seq<RowChange>, rows2: seq<RowChange>)
    requires Undoable(defs, s, rows1 + rows2)
    ensures Undoable(defs, s, rows1)
    decreases |rows1|
  {
    if rows1 != [] {
      HeadAndRest(rows1, rows2);
      UndoableFront(defs, Apply(s, rows1[0]), rows1[1..], rows2);
    }
  }

  lemma {:induction false} UndoableBack(defs: Definitions, s: State, rows1: seq<RowChange>, rows2: seq<RowChange>)
    requires Undoable(defs, s, rows1 + rows2) && Runs(s, rows1)
    ensures Undoable(defs, ApplyAll(s, rows1), rows2)
    decreases |rows1|
  {
    if rows1 == [] {
      assert rows1 + rows2 == rows2;
    } else {
      HeadAndRest(rows1, rows2);
      UndoableBack(defs, Apply(s, rows1[0]), rows1[1..], rows2);
    }
  }

  lemma UndoableAppend(defs: Definitions, s: State, rows1: seq<RowChange>, rows2: seq<RowChange>)
    requires Undoable(defs, s, rows1 + rows2)
    ensures Undoable(defs, s, rows1) && Undoable(defs, ApplyAll(s, rows1), rows2)
    ensures ApplyAll(s, rows1 + rows2) == ApplyAll(ApplyAll(s, rows1), rows2)
  {
    ApplyAppend(s, rows1, rows2);
    UndoableFront(defs, s, rows1, rows2);
    UndoableBack(defs, s, rows1, rows2);
  }

  // ---------- several transactions ----------

  function AllReversals(defs: Definitions, groups: seq<seq<RowChange>>): seq<Sql>
    requires forall g :: 0 <= g < |groups| ==> AllClean(defs, groups[g])
  {
    if groups == [] then [] else Reversals(defs, groups[0]) + AllReversals(defs, groups[1..])
  }

  ghost predicate PairwiseApart(defs: Definitions, groups: seq<seq<RowChange>>) {
    forall g, h :: 0 <= g < h < |groups| ==> AllApart(defs, groups[g], groups[h])
  }

  lemma {:induction false} ApartFromAll(defs: Definitions, rows: seq<RowChange>, groups: seq<seq<RowChange>>)
    requires forall h :: 0 <= h < |groups| ==> AllApart(defs, rows, groups[h])
    ensures AllApart(defs, rows, Flatten(groups))
  {
    if groups != [] {
      ApartFromAll(defs, rows, groups[1..]);
      forall i, j | 0 <= i < |rows| && 0 <= j < |Flatten(groups)| ensures Apart(defs, rows[i], Flatten(groups)[j]) {
        if j < |groups[0]| {
          assert Apart(defs, rows[i], groups[0][j]);
        } else {
          assert Apart(defs, rows[i], Flatten(groups[1..])[j - |groups[0]|]);
        }
      }
    }
  }

  lemma {:induction false} GroupsUndone(defs: Definitions, s: State, groups: seq<seq<RowChange>>)
    requires forall g :: 0 <= g < |groups| ==> AllClean(defs, groups[g])
    requires PairwiseApart(defs, groups)
    requires Undoable(defs, s, Flatten(groups))
    ensures ExecuteAll(defs, ApplyAll(s, Flatten(groups)), AllReversals(defs, groups)) == Some(s)
  {
    if groups != [] {
      var rows, rest := groups[0], groups[1..];
      UndoableAppend(defs, s, rows, Flatten(rest));
      var s1 := ApplyAll(s, rows);
      ReversalsRestore(defs, s, rows);
      ApartFromAll(defs, rows, rest);
      PlanPastRun(defs, s1, rows, Flatten(rest));
      ExecuteAppend(defs, ApplyAll(s, Flatten(groups)), Reversals(defs, rows), AllReversals(defs, rest));
      GroupsUndone(defs, s, rest);
    }
  }

  // ---------- the plan the command builds ----------

  function Plan(txs: seq<Transaction>, schema: map<string, TableSchema>): seq<Statement> {
    if txs == [] then [] else UndoPlan(txs[0], schema, 0) + Plan(txs[1..], schema)
  }

  lemma SuccessfulParts(first: seq<Statement>, rest: seq<Statement>)
    requires forall st :: st in first + rest ==> Successful(st)
    ensures (forall st :: st in first ==> Successful(st)) && (forall st :: st in rest ==> Successful(st))
  {
    assert forall st :: st in first || st in rest ==> st in first + rest;
  }

  lemma CleanTogether(defs: Definitions, rows: seq<RowChange>, rows': seq<RowChange>)
    requires AllClean(defs, rows) && AllClean(defs, rows')
    ensures AllClean(defs, rows + rows')
  {
  }

  lemma {:induction false} PlanReadsAs(defs: Definitions, txs: seq<Transaction>, schema: map<string, TableSchema>)
    requires forall t :: 0 <= t < |txs| ==> Suitable(defs, schema, txs[t].statements)
    requires forall st :: st in Plan(txs, schema) ==> Successful(st)
    ensures forall t :: 0 <= t < |txs| ==> AllClean(defs, txs[t].statements)
    ensures AllClean(defs, Flatten(Map(Rows, txs)))
    ensures ReadsAs(Plan(txs, schema), AllReversals(defs, Map(Rows, txs)))
  {
    if txs != [] {
      var first, rest := UndoPlan(txs[0], schema, 0), Plan(txs[1..], schema);
      SuccessfulParts(first, rest);
      PlanMeans(defs, schema, txs[0], 0);
      PlanReadsAs(defs, txs[1..], schema);
      MapRest(txs);
      CleanTogether(defs, txs[0].statements, Flatten(Map(Rows, txs[1..])));
      ReadsTogether(first, Reversals(defs, txs[0].statements), rest, AllReversals(defs, Map(Rows, txs[1..])));
    }
  }

  lemma MapRest(txs: seq<Transaction>)
    requires txs != []
    ensures Map(Rows, txs)[0] == txs[0].statements && Map(Rows, txs)[1..] == Map(Rows, txs[1..])
    ensures forall t :: 1 <= t < |txs| ==> txs[t] == txs[1..][t - 1]
  {
  }

  /** Several transactions that touch pairwise different keys, none of them truncated: the plan in scan order,
      printed and read back, restores the state before all of them. */
  lemma TransactionsUndone(defs: Definitions, schema: map<string, TableSchema>, txs: seq<Transaction>, s: State)
    requires forall t :: 0 <= t < |txs| ==> Suitable(defs, schema, txs[t].statements)
    requires forall st :: st in Plan(txs, schema) ==> Successful(st)
    requires forall t :: 0 <= t < |txs| ==> !txs[t].truncated
    requires PairwiseApart(defs, Map(Rows, txs))
    requires Runs(s, Flatten(Map(Rows, txs))) && StaysKeyed(defs, s, Flatten(Map(Rows, txs)))
    ensures ExecuteText(defs, ApplyAll(s, Flatten(Map(Rows, txs))), Plan(txs, schema)) == Some(s)
  {
    var groups := Map(Rows, txs);
    PlanReadsAs(defs, txs, schema);
    KeyedRunIsReversible(defs, s, Flatten(groups));
    GroupsUndone(defs, s, groups);
    ExecuteRead(defs, ApplyAll(s, Flatten(groups)), Plan(txs, schema), AllReversals(defs, groups));
  }

  lemma InsertThenDeleteRuns(defs: Definitions, s: State, rc1: RowChange, rc2: RowChange)
    requires rc1.action.Insert? && rc2.action.Delete? && TableOf(rc1) == TableOf(rc2)
    requires RowOf(rc1.after) == RowOf(rc2.before)
    requires Undoable(defs, s, [rc1, rc2])
    ensures ApplyAll(s, [rc1, rc2]) == s
    ensures Clean(defs, rc1) && Clean(defs, rc2) && TableOf(rc1) in s && Reversible(defs, s[TableOf(rc1)], rc1)
  {
    var t, x, m := TableOf(rc1), RowOf(rc1.after), s[TableOf(rc1)];
    assert [rc1, rc2][1..] == [rc2];
    assert [rc2][1..] == [];
    PutTwice(s, t, m + multiset{x}, m + multiset{x} - multiset{x});
    assert m + multiset{x} - multiset{x} == m;
    assert Undoable(defs, Apply(s, rc1), [rc2]);
    assert ApplyAll(s, [rc1, rc2]) == ApplyAll(Apply(s, rc1), [rc2]) == Apply(Apply(s, rc1), rc2);
    assert Apply(Apply(s, rc1), rc2) == s[t := m] == s;
  }

  lemma ReversalAlone(defs: Definitions, s: State, rc: RowChange)
    requires Clean(defs, rc) && TableOf(rc) in s
    ensures AllClean(defs, [rc])
    ensures ExecuteAll(defs, s, Reversals(defs, [rc])) == Some(s[TableOf(rc) := RowsReversed(defs, s[TableOf(rc)], rc)])
  {
    assert Reversals(defs, [rc]) == [Reversal(defs, rc)];
    ExecuteOne(defs, s, rc);
    ReversalRows(defs, s, rc);
  }

  // The row is gone already, so undoing the insert again changes nothing.
  lemma InsertUndoneTwice(defs: Definitions, s: State, rc: RowChange)
    requires rc.action.Insert? && Clean(defs, rc) && TableOf(rc) in s && Reversible(defs, s[TableOf(rc)], rc)
    ensures ExecuteAll(defs, s, Reversals(defs, [rc])) == Some(s)
  {
    ReversalAlone(defs, s, rc);
    assert RowsReversed(defs, s[TableOf(rc)], rc) == s[TableOf(rc)];
    assert s[TableOf(rc) := s[TableOf(rc)]] == s;
  }

  /** Where two transactions touch the same row the plan in scan order can fail: a row inserted by one and
      deleted by the next comes back. */
  lemma InsertThenDeleteComesBack(defs: Definitions, s: State, rc1: RowChange, rc2: RowChange)
    requires rc1.action.Insert? && rc2.action.Delete? && TableOf(rc1) == TableOf(rc2)
    requires RowOf(rc1.after) == RowOf(rc2.before)
    requires Undoable(defs, s, [rc1, rc2])
    ensures AllClean(defs, [rc1]) && AllClean(defs, [rc2])
    ensures ExecuteAll(defs, ApplyAll(s, [rc1, rc2]), Reversals(defs, [rc1]) + Reversals(defs, [rc2]))
      == Some(s[TableOf(rc1) := s[TableOf(rc1)] + multiset{RowOf(rc1.after)}])
  {
    InsertThenDeleteRuns(defs, s, rc1, rc2);
    ExecuteAppend(defs, s, Reversals(defs, [rc1]), Reversals(defs, [rc2]));
    InsertUndoneTwice(defs, s, rc1);
    ReversalAlone(defs, s, rc2);
  }

  // Item n of a table with the single key column c, inserted and deleted.
  function ItemTable(t: TableId, c: string): Definitions {
    map[t := TableSchema([c], [c])]
  }

  function ItemAdded(t: TableId, n: int): RowChange {
    RowChange(t.0, t.1, Insert, [], [Int(n)], [])
  }

  function ItemRemoved(t: TableId, n: int): RowChange {
    RowChange(t.0, t.1, Delete, [Int(n)], [], [])
  }

  lemma ItemKey(c: string, n: int)
    ensures WhereColumns([Int(n)], [c], [c]).1 == []
  {
    var pk, idxs: seq<nat> := [c], [0];
    assert pk[..|pk| - 1] == [] && idxs[..|idxs| - 1] == [];
    assert ResolvedPK(pk, pk[..|pk| - 1]) == ([], []);
    assert IndexOf(pk, c) == Some(0);
    assert ResolvedPK(pk, pk).0 == idxs && ResolvedPK(pk, pk).1 == [];
    assert Usable(pk, idxs[..|idxs| - 1], [Int(n)]) == ([], []);
  }

  lemma ItemsClean(t: TableId, c: string, n: int)
    ensures Clean(ItemTable(t, c), ItemAdded(t, n)) && Clean(ItemTable(t, c), ItemRemoved(t, n))
  {
    ItemKey(c, n);
  }

  lemma ItemUndoable(t: TableId, c: string, n: int)
    ensures Undoable(ItemTable(t, c), map[t := multiset{}], [ItemAdded(t, n), ItemRemoved(t, n)])
  {
    var defs, s, rc1, rc2 := ItemTable(t, c), map[t := multiset{}], ItemAdded(t, n), ItemRemoved(t, n);
    ItemsClean(t, c, n);
    assert [rc1, rc2][1..] == [rc2] && [rc2][1..] == [];
    var s1 := Apply(s, rc1);
    assert RowOf(rc1.after) == RowOf(rc2.before);
    assert s1[t] == multiset{RowOf(rc1.after)};
    assert Undoable(defs, Apply(s1, rc2), []);
    assert Undoable(defs, s1, [rc2]);
  }

  /** Such a pair exists: an item inserted into an empty table by one transaction and deleted by the next is
      in the table after the plan, though it was not there before. */
  lemma ScanOrderLeavesItem(t: TableId, c: string, n: int)
    ensures var s, rc1, rc2 := map[t := multiset{}], ItemAdded(t, n), ItemRemoved(t, n);
      Undoable(ItemTable(t, c), s, [rc1, rc2])
      && ExecuteAll(ItemTable(t, c), ApplyAll(s, [rc1, rc2]), Reversals(ItemTable(t, c), [rc1]) + Reversals(ItemTable(t, c), [rc2]))
        == Some(s[t := multiset{RowOf([Int(n)])}])
  {
    var s, rc1, rc2 := map[t := multiset{}], ItemAdded(t, n), ItemRemoved(t, n);
    ItemUndoable(t, c, n);
    InsertThenDeleteComesBack(ItemTable(t, c), s, rc1, rc2);
    assert s[t] + multiset{RowOf([Int(n)])} == multiset{RowOf([Int(n)])} by { assert s[t] == multiset{}; }
  }

  lemma OtherItemStays(t: TableId, c: string, n: int, m: int)
    requires n != m
    ensures Clean(ItemTable(t, c), ItemAdded(t, n))
    ensures RowsReversed(ItemTable(t, c), multiset{RowOf([Int(n)]), RowOf([Int(m)])}, ItemAdded(t, n)) == multiset{RowOf([Int(m)])}
  {
    var defs, rc, x, y := ItemTable(t, c), ItemAdded(t, n), RowOf([Int(n)]), RowOf([Int(m)]);
    ItemsClean(t, c, n);
    SelectsAfter(defs, rc);
    SelectsByKey(defs, rc, y);
    OnlyKeyPosition(c);
    assert x[0] != y[0] && x != y;
    assert Selected(defs, rc, multiset{x, y}) == multiset{x};
    assert multiset{x, y} - multiset{x} == multiset{y};
  }

  lemma OnlyKeyPosition(c: string)
    ensures 0 in KeyPositions(TableSchema([c], [c]))
  {
    var pk := [c];
    assert pk[..|pk| - 1] == [];
    assert IndexOf(pk, c) == Some(0);
    assert ResolvedPK(pk, pk).0 == ResolvedPK(pk, []).0 + [0];
  }

  /** A transaction cut to its first change is undone in part: of two items added, the plan for the first alone
      leaves the second, and nothing warns of it. */
  lemma TruncatedLeavesItem(t: TableId, c: string, n: int, m: int)
    requires n != m
    ensures var defs, s := ItemTable(t, c), map[t := multiset{}];
      Runs(s, [ItemAdded(t, n), ItemAdded(t, m)]) && AllClean(defs, [ItemAdded(t, n)])
      && ExecuteAll(defs, ApplyAll(s, [ItemAdded(t, n), ItemAdded(t, m)]), Reversals(defs, [ItemAdded(t, n)]))
        == Some(s[t := multiset{RowOf([Int(m)])}])
  {
    var defs, rc1, rc2 := ItemTable(t, c), ItemAdded(t, n), ItemAdded(t, m);
    var s: State := map[t := multiset{}];
    ItemsClean(t, c, n);
    var s1, s2 := Apply(s, rc1), Apply(Apply(s, rc1), rc2);
    assert [rc1, rc2][1..] == [rc2] && [rc2][1..] == [];
    assert ApplyAll(s, [rc1, rc2]) == ApplyAll(s1, [rc2]) == s2;
    assert s2[t] == multiset{RowOf([Int(n)]), RowOf([Int(m)])};
    ReversalAlone(defs, s2, rc1);
    OtherItemStays(t, c, n, m);
    PutTwice(s, t, s1[t], s2[t]);
    PutTwice(s, t, s2[t], multiset{RowOf([Int(m)])});
  }

  // ---------- the command ----------

  datatype FlashbackError = ScanFailed(reason: string) | NoTransactions | Generation(error: GenerateError)

  function DefinitionsFor(txs: seq<Transaction>, fetch: Fetcher): Cache {
    if txs == [] then map[] else Fill(DefinitionsFor(txs[..|txs| - 1], fetch), txs[|txs| - 1].statements, fetch)
  }

  lemma {:induction false} PlanAppend(txs: seq<Transaction>, tx: Transaction, schema: Cache)
    ensures Plan(txs + [tx], schema) == Plan(txs, schema) + UndoPlan(tx, schema, 0)
  {
    if txs != [] {
      assert (txs + [tx])[1..] == txs[1..] + [tx];
      PlanAppend(txs[1..], tx, schema);
    }
  }

  // The plan of a flashback run over the scanned transactions; failure says whether the scan ended in an error.
  method RunFlashback(scanned: seq<Transaction>, failure: Option<string>, fetch: Fetcher) returns (r: Result<seq<Statement>, FlashbackError>)
    ensures failure.Some? ==> r == Err(ScanFailed(failure.value))
    ensures failure.None? && scanned == [] ==> r == Err(NoTransactions)
    ensures failure.None? && scanned != [] && (forall t :: 0 <= t < |scanned| ==> scanned[t].txId != "") ==>
      r == Ok(Plan(scanned, DefinitionsFor(scanned, fetch)))
    ensures failure.None? && (exists t :: 0 <= t < |scanned| && scanned[t].txId == "") ==> r == Err(Generation(MissingTxId))
  {
    var schemaMap: Cache := map[];
    var allTx: seq<Transaction> := [];
    for i := 0 to |scanned|
      invariant allTx == scanned[..i]
      invariant schemaMap == DefinitionsFor(scanned[..i], fetch)
    {
      assert scanned[..i + 1][..i] == scanned[..i];
      schemaMap := FillLoop(schemaMap, scanned[i].statements, fetch);
      allTx := allTx + [scanned[i]];
    }
    assert scanned[..|scanned|] == scanned;
    if failure.Some? {
      return Err(ScanFailed(failure.value));
    }
    if |allTx| == 0 {
      return Err(NoTransactions);
    }
    var allStmts: seq<Statement> := [];
    for i := 0 to |allTx|
      invariant allStmts == Plan(allTx[..i], schemaMap)
      invariant forall t :: 0 <= t < i ==> allTx[t].txId != ""
    {
      var stmts := Generate(allTx[i], schemaMap, 0);
      if stmts.Err? {
        return Err(Generation(stmts.error));
      }
      allStmts := allStmts + stmts.value;
      PlanAppend(allTx[..i], allTx[i], schemaMap);
      assert allTx[..i + 1] == allTx[..i] + [allTx[i]];
    }
    assert allTx[..|allTx|] == allTx;
    return Ok(allStmts);
  }
}
