/**
 Undoing where keys need not be unique, duplicate rows of keyless tables included: the plan restores the tables
 exactly when a replay does, on what the tables hold under the touched keys.
 */
module Duplicates {
  import opened Base
  import opened Values
  import opened Database
  import opened Undo
  import opened Flashback
  import opened Overlap

  // The rows of m under key k.
  ghost function Under(defs: Definitions, k: Key, m: multiset<Row>): (r: multiset<Row>)
    ensures forall x :: r[x] == if KeyIn(defs, k.table, x) == k then m[x] else 0
    decreases |m|
  {
    if m == multiset{} then multiset{}
    else
      var x :| x in m;
      (if KeyIn(defs, k.table, x) == k then multiset{x} else multiset{}) + Under(defs, k, m - multiset{x})
  }

  // What s holds under some keys of its tables.
  ghost function ContentsIn(defs: Definitions, s: State, keys: set<Key>): Contents {
    map k | k in keys && k.table in s :: Under(defs, k, s[k.table])
  }

  // A change on the contents of its keys, counting repetitions.
  function Performed(defs: Definitions, c: Contents, rc: RowChange): Contents {
    match rc.action
    case Delete => c[BeforeKey(defs, rc) := Content(c, BeforeKey(defs, rc)) - multiset{RowOf(rc.before)}]
    case Insert => c[AfterKey(defs, rc) := Content(c, AfterKey(defs, rc)) + multiset{RowOf(rc.after)}]
    case Update =>
      var gone := c[BeforeKey(defs, rc) := Content(c, BeforeKey(defs, rc)) - multiset{RowOf(rc.before)}];
      gone[AfterKey(defs, rc) := Content(gone, AfterKey(defs, rc)) + multiset{RowOf(rc.after)}]
    case Unknown(_) => c
  }

  function PerformedAll(defs: Definitions, c: Contents, rows: seq<RowChange>): Contents
    decreases |rows|
  {
    if rows == [] then c else PerformedAll(defs, Performed(defs, c, rows[0]), rows[1..])
  }

  lemma ContentsDescribe(defs: Definitions, s: State, keys: set<Key>)
    requires forall k :: k in keys ==> k.table in s
    ensures Described(defs, s, ContentsIn(defs, s, keys)) && ContentsIn(defs, s, keys).Keys == keys
  {
    var c := ContentsIn(defs, s, keys);
    forall k, x | k in c && x in c[k] ensures KeyIn(defs, k.table, x) == k {
      assert Under(defs, k, s[k.table])[x] > 0;
    }
    forall t | t in s ensures RowsDescribed(defs, t, s[t], c) {
      forall x | KeyIn(defs, t, x) in c ensures s[t][x] == c[KeyIn(defs, t, x)][x] {
        assert KeyIn(defs, t, x).table == t;
      }
    }
  }

  // ---------- one change ----------

  lemma PerformedWellKeyed(defs: Definitions, c: Contents, rc: RowChange)
    requires Covers(defs, c, rc) && WellKeyed(defs, c)
    ensures WellKeyed(defs, Performed(defs, c, rc)) && Performed(defs, c, rc).Keys == c.Keys
  {
    TouchedIn(defs, c, rc);
    match rc.action
    case Delete => TakeWellKeyed(defs, c, BeforeKey(defs, rc), RowOf(rc.before));
    case Insert => AddWellKeyed(defs, c, TableOf(rc), RowOf(rc.after));
    case Update =>
      TakeWellKeyed(defs, c, BeforeKey(defs, rc), RowOf(rc.before));
      AddWellKeyed(defs, c[BeforeKey(defs, rc) := Content(c, BeforeKey(defs, rc)) - multiset{RowOf(rc.before)}], TableOf(rc), RowOf(rc.after));
    case Unknown(_) =>
  }

  lemma TakeWellKeyed(defs: Definitions, c: Contents, k: Key, x: Row)
    requires k in c && WellKeyed(defs, c)
    ensures WellKeyed(defs, c[k := Content(c, k) - multiset{x}]) && c[k := Content(c, k) - multiset{x}].Keys == c.Keys
  {
    var m := Content(c, k) - multiset{x};
    forall y | y in m ensures KeyIn(defs, k.table, y) == k { assert y in c[k]; }
    PutWellKeyed(defs, c, k, m);
    SameKeys(c, k, m);
  }

  lemma AddWellKeyed(defs: Definitions, c: Contents, t: TableId, x: Row)
    requires KeyIn(defs, t, x) in c && WellKeyed(defs, c)
    ensures var k := KeyIn(defs, t, x);
      WellKeyed(defs, c[k := Content(c, k) + multiset{x}]) && c[k := Content(c, k) + multiset{x}].Keys == c.Keys
  {
    var k := KeyIn(defs, t, x);
    var m := Content(c, k) + multiset{x};
    forall y | y in m ensures KeyIn(defs, k.table, y) == k {
      if y != x { assert y in c[k]; }
    }
    PutWellKeyed(defs, c, k, m);
    SameKeys(c, k, m);
  }

  lemma UpdatePerformedAt(defs: Definitions, m: multiset<Row>, c: Contents, rc: RowChange, x: Row)
    requires rc.action.Update? && Covers(defs, c, rc) && RowsDescribed(defs, TableOf(rc), m, c) && RowOf(rc.before) in m
    ensures var k := KeyIn(defs, TableOf(rc), x);
      RowsApplied(m, rc)[x] == if k in c && k in Performed(defs, c, rc) then Performed(defs, c, rc)[k][x] else m[x]
  {
    var k, a, b := KeyIn(defs, TableOf(rc), x), RowOf(rc.after), RowOf(rc.before);
    TouchedIn(defs, c, rc);
    assert RowsApplied(m, rc)[x] == m[x] - (if x == b then 1 else 0) + (if x == a then 1 else 0);
    var gone := c[BeforeKey(defs, rc) := Content(c, BeforeKey(defs, rc)) - multiset{b}];
    if k in c {
      assert gone[k][x] == c[k][x] - if x == b then 1 else 0;
    }
  }

  lemma PerformedAt(defs: Definitions, m: multiset<Row>, c: Contents, rc: RowChange, x: Row)
    requires Covers(defs, c, rc) && RowsDescribed(defs, TableOf(rc), m, c)
    requires rc.action.Delete? || rc.action.Update? ==> RowOf(rc.before) in m
    ensures var k := KeyIn(defs, TableOf(rc), x);
      RowsApplied(m, rc)[x] == if k in c && k in Performed(defs, c, rc) then Performed(defs, c, rc)[k][x] else m[x]
  {
    TouchedIn(defs, c, rc);
    match rc.action
    case Update => UpdatePerformedAt(defs, m, c, rc, x);
    case Insert => assert RowsApplied(m, rc)[x] == m[x] + if x == RowOf(rc.after) then 1 else 0;
    case Delete => assert RowsApplied(m, rc)[x] == m[x] - if x == RowOf(rc.before) then 1 else 0;
    case Unknown(_) =>
  }

  lemma PerformedElsewhere(defs: Definitions, c: Contents, rc: RowChange, k: Key)
    requires k.table != TableOf(rc) && k in c
    ensures k in Performed(defs, c, rc) && Performed(defs, c, rc)[k] == c[k]
  {
    assert k != BeforeKey(defs, rc) && k != AfterKey(defs, rc);
  }

  lemma PerformedOwnTable(defs: Definitions, m: multiset<Row>, c: Contents, rc: RowChange)
    requires Covers(defs, c, rc) && WellKeyed(defs, c) && RowsDescribed(defs, TableOf(rc), m, c)
    requires rc.action.Delete? || rc.action.Update? ==> RowOf(rc.before) in m
    ensures RowsDescribed(defs, TableOf(rc), RowsApplied(m, rc), Performed(defs, c, rc))
    ensures RowsAgreeOff(defs, TableOf(rc), m, RowsApplied(m, rc), c.Keys)
  {
    var t, m', c' := TableOf(rc), RowsApplied(m, rc), Performed(defs, c, rc);
    PerformedWellKeyed(defs, c, rc);
    forall x ensures m'[x] == if KeyIn(defs, t, x) in c then c'[KeyIn(defs, t, x)][x] else m[x] {
      PerformedAt(defs, m, c, rc, x);
    }
  }

  lemma PerformedDescribed(defs: Definitions, s: State, c: Contents, rc: RowChange)
    requires Covers(defs, c, rc) && Described(defs, s, c) && CanApply(s, rc)
    ensures Described(defs, Apply(s, rc), Performed(defs, c, rc))
    ensures Performed(defs, c, rc).Keys == c.Keys && AgreeOff(defs, s, Apply(s, rc), c.Keys)
  {
    var c' := Performed(defs, c, rc);
    PerformedWellKeyed(defs, c, rc);
    PerformedOwnTable(defs, s[TableOf(rc)], c, rc);
    forall t | t in s && t != TableOf(rc) ensures RowsDescribed(defs, t, s[t], c') {
      forall x | KeyIn(defs, t, x) in c ensures c'[KeyIn(defs, t, x)] == c[KeyIn(defs, t, x)] {
        PerformedElsewhere(defs, c, rc, KeyIn(defs, t, x));
      }
      assert RowsDescribed(defs, t, s[t], c);
    }
    PutDescribed(defs, s, c, TableOf(rc), RowsApplied(s[TableOf(rc)], rc), c');
  }

  // ---------- a run ----------

  lemma {:induction false} RunPerformed(defs: Definitions, s: State, c: Contents, rows: seq<RowChange>)
    requires CoversAll(defs, c, rows) && Described(defs, s, c) && Runs(s, rows)
    ensures Described(defs, ApplyAll(s, rows), PerformedAll(defs, c, rows))
    ensures PerformedAll(defs, c, rows).Keys == c.Keys && AgreeOff(defs, s, ApplyAll(s, rows), c.Keys)
    decreases |rows|
  {
    if rows != [] {
      CoversRest(defs, c, c, rows);
      PerformedDescribed(defs, s, c, rows[0]);
      CoversRest(defs, c, Performed(defs, c, rows[0]), rows);
      RunPerformed(defs, Apply(s, rows[0]), Performed(defs, c, rows[0]), rows[1..]);
      AgreeThrough(defs, s, Apply(s, rows[0]), ApplyAll(s, rows), c.Keys);
    }
  }

  lemma {:induction false} TouchedTables(defs: Definitions, s: State, rows: seq<RowChange>)
    requires Runs(s, rows)
    ensures forall k :: k in Touched(defs, rows) ==> k.table in s
    decreases |rows|
  {
    if rows != [] {
      SameTouched(defs, rows[0]);
      TouchedTables(defs, Apply(s, rows[0]), rows[1..]);
    }
  }

  /** After any applicable changes, whether or not keys are unique, the undo plans of groups of them, in any
      order of groups, restore the tables exactly when the replay on the contents of the touched keys ends
      where it began. */
  lemma AnyStateUndoneIff(defs: Definitions, s: State, rows: seq<RowChange>, groups: seq<seq<RowChange>>)
    requires forall g :: 0 <= g < |groups| ==> AllClean(defs, groups[g])
    requires forall rc :: rc in Flatten(groups) ==> rc in rows
    requires Runs(s, rows)
    ensures var c := ContentsIn(defs, s, Touched(defs, rows));
      ExecuteAll(defs, ApplyAll(s, rows), AllReversals(defs, groups)) == Some(s)
      <==> Replayed(defs, PerformedAll(defs, c, rows), PlanOrder(groups)) == c
  {
    var keys := Touched(defs, rows);
    var c := ContentsIn(defs, s, keys);
    TouchedTables(defs, s, rows);
    ContentsDescribe(defs, s, keys);
    OrderCovered(defs, c, rows, rows);
    RunPerformed(defs, s, c, rows);
    PlanUndoes(defs, groups);
    OrderCovered(defs, PerformedAll(defs, c, rows), rows, PlanOrder(groups));
    ReplayIff(defs, s, ApplyAll(s, rows), c, PerformedAll(defs, c, rows), AllReversals(defs, groups), PlanOrder(groups));
  }

  /** One transaction, undone last change first. */
  lemma TransactionUndoneIff(defs: Definitions, s: State, rows: seq<RowChange>)
    requires AllClean(defs, rows) && Runs(s, rows)
    ensures var c := ContentsIn(defs, s, Touched(defs, rows));
      ExecuteAll(defs, ApplyAll(s, rows), Reversals(defs, rows)) == Some(s)
      <==> Replayed(defs, PerformedAll(defs, c, rows), Backwards(rows)) == c
  {
    var groups := [rows];
    assert groups[1..] == [];
    assert AllReversals(defs, groups) == Reversals(defs, rows) + AllReversals(defs, []) == Reversals(defs, rows);
    assert Flatten(groups) == rows + Flatten<RowChange>([]) == rows;
    assert PlanOrder(groups) == Backwards(rows) + PlanOrder([]) == Backwards(rows);
    AnyStateUndoneIff(defs, s, rows, groups);
  }

  // ---------- transactions of inserts ----------

  predicate AllInserts(rows: seq<RowChange>) {
    forall i :: 0 <= i < |rows| ==> rows[i].action.Insert?
  }

  // Their undo statements empty every touched key and put nothing back.
  lemma {:induction false} InsertsEmpty(defs: Definitions, c: Contents, order: seq<RowChange>)
    requires AllInserts(order) && CoversAll(defs, c, order)
    ensures Replayed(defs, c, order).Keys == c.Keys
    ensures forall k :: k in c ==> Replayed(defs, c, order)[k] == if k in Touched(defs, order) then multiset{} else c[k]
    decreases |order|
  {
    if order != [] {
      var k := AfterKey(defs, order[0]);
      TouchedIn(defs, c, order[0]);
      assert Covers(defs, c, order[0]) && order[0].action.Insert?;
      SameKeys(c, k, multiset{});
      CoversRest(defs, c, c[k := multiset{}], order);
      InsertsEmpty(defs, c[k := multiset{}], order[1..]);
      assert Left(defs, order[0]).Keys == {k};
    }
  }

  lemma {:induction false} TouchedBackwards(defs: Definitions, rows: seq<RowChange>)
    ensures Touched(defs, Backwards(rows)) == Touched(defs, rows)
    ensures forall rc :: rc in Backwards(rows) ==> rc in rows
  {
    if rows != [] {
      TouchedBackwards(defs, rows[1..]);
      TouchedAppend(defs, Backwards(rows[1..]), rows[0]);
    }
  }

  lemma {:induction false} TouchedAppend(defs: Definitions, rows: seq<RowChange>, rc: RowChange)
    ensures Touched(defs, rows + [rc]) == Touched(defs, rows) + Left(defs, rc).Keys
    decreases |rows|
  {
    if rows == [] {
      assert rows + [rc] == [rc];
      assert Touched(defs, [rc]) == Left(defs, rc).Keys + Touched(defs, []);
    } else {
      assert (rows + [rc])[1..] == rows[1..] + [rc];
      TouchedAppend(defs, rows[1..], rc);
    }
  }

  // No row of s lies under the keys.
  ghost predicate NothingUnder(defs: Definitions, s: State, keys: set<Key>) {
    forall t, x :: t in s && x in s[t] ==> KeyIn(defs, t, x) !in keys
  }

  lemma EmptyContents(defs: Definitions, s: State, c: Contents)
    requires Described(defs, s, c)
    ensures (forall k :: k in c ==> c[k] == multiset{}) <==> NothingUnder(defs, s, c.Keys)
  {
    if forall k :: k in c ==> c[k] == multiset{} {
      forall t, x | t in s && x in s[t] ensures KeyIn(defs, t, x) !in c {
        if KeyIn(defs, t, x) in c { DescribedAt(defs, s, c, KeyIn(defs, t, x), x); }
      }
    }
    if NothingUnder(defs, s, c.Keys) {
      forall k | k in c ensures c[k] == multiset{} {
        if x :| x in c[k] { DescribedAt(defs, s, c, k, x); }
      }
    }
  }

  lemma InsertsReplay(defs: Definitions, c: Contents, last: Contents, rows: seq<RowChange>)
    requires AllInserts(rows) && last.Keys == c.Keys == Touched(defs, rows)
    ensures Replayed(defs, last, Backwards(rows)) == c <==> forall k :: k in c ==> c[k] == multiset{}
  {
    TouchedBackwards(defs, rows);
    OrderCovered(defs, last, rows, Backwards(rows));
    assert AllInserts(Backwards(rows)) by {
      forall i | 0 <= i < |Backwards(rows)| ensures Backwards(rows)[i].action.Insert? {
        assert Backwards(rows)[i] in Backwards(rows);
      }
    }
    InsertsEmpty(defs, last, Backwards(rows));
  }

  /** A transaction of inserts is undone exactly when the tables held nothing under the keys it inserts: in a
      keyless table, none of the rows it inserts. Rows it inserts twice do no harm. */
  lemma InsertsUndoneIff(defs: Definitions, s: State, rows: seq<RowChange>)
    requires AllClean(defs, rows) && Runs(s, rows) && AllInserts(rows)
    ensures ExecuteAll(defs, ApplyAll(s, rows), Reversals(defs, rows)) == Some(s)
      <==> NothingUnder(defs, s, Touched(defs, rows))
  {
    var keys := Touched(defs, rows);
    var c := ContentsIn(defs, s, keys);
    TransactionUndoneIff(defs, s, rows);
    TouchedTables(defs, s, rows);
    ContentsDescribe(defs, s, keys);
    OrderCovered(defs, c, rows, rows);
    RunPerformed(defs, s, c, rows);
    InsertsReplay(defs, c, PerformedAll(defs, c, rows), rows);
    EmptyContents(defs, s, c);
  }
}
