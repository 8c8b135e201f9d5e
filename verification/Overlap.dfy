/**
 The flashback command's plan for transactions that may touch the same rows (cmd/agent/flashback.go): it
 restores the tables exactly when a replay on the touched keys alone, computed from the row changes, ends
 where the changes began.
 */
module Overlap {
  import opened Base
  import opened Values
  import opened SqlLexis
  import opened SqlText
  import opened Database
  import opened Undo
  import opened Flashback

  // A key of a table: the row's values at the key positions, None where the row is too short.
  datatype Key = Key(table: TableId, at: seq<Option<Literal>>)

  // What is stored under each of some keys.
  type Contents = map<Key, multiset<Row>>

  function KeyIn(defs: Definitions, t: TableId, x: Row): Key {
    var idxs := if t in defs then KeyPositions(defs[t]) else [];
    Key(t, seq(|idxs|, k requires 0 <= k < |idxs| => if idxs[k] < |x| then Some(x[idxs[k]]) else None))
  }

  function BeforeKey(defs: Definitions, rc: RowChange): Key {
    KeyIn(defs, TableOf(rc), RowOf(rc.before))
  }

  function AfterKey(defs: Definitions, rc: RowChange): Key {
    KeyIn(defs, TableOf(rc), RowOf(rc.after))
  }

  function Content(c: Contents, k: Key): multiset<Row> {
    if k in c then c[k] else multiset{}
  }

  // ---------- the replay, on row changes alone ----------

  // What a change leaves under the keys it touches, and what it found there.
  function Left(defs: Definitions, rc: RowChange): Contents {
    match rc.action
    case Delete => map[BeforeKey(defs, rc) := multiset{}]
    case Insert => map[AfterKey(defs, rc) := multiset{RowOf(rc.after)}]
    case Update => map[BeforeKey(defs, rc) := multiset{}][AfterKey(defs, rc) := multiset{RowOf(rc.after)}]
    case Unknown(_) => map[]
  }

  function Found(defs: Definitions, rc: RowChange): Contents {
    match rc.action
    case Delete => map[BeforeKey(defs, rc) := multiset{RowOf(rc.before)}]
    case Insert => map[AfterKey(defs, rc) := multiset{}]
    case Update => map[AfterKey(defs, rc) := multiset{}][BeforeKey(defs, rc) := multiset{RowOf(rc.before)}]
    case Unknown(_) => map[]
  }

  // One undo statement: an INSERT adds the old row, a DELETE empties the key, an UPDATE turns every row of
  // the new key into the old row.
  function Undone(defs: Definitions, c: Contents, rc: RowChange): Contents {
    match rc.action
    case Delete => c[BeforeKey(defs, rc) := Content(c, BeforeKey(defs, rc)) + multiset{RowOf(rc.before)}]
    case Insert => c[AfterKey(defs, rc) := multiset{}]
    case Update =>
      var moved := c[AfterKey(defs, rc) := multiset{}];
      moved[BeforeKey(defs, rc) := Content(moved, BeforeKey(defs, rc)) + Copies(RowOf(rc.before), |Content(c, AfterKey(defs, rc))|)]
    case Unknown(_) => c
  }

  // What the touched keys hold after a run of changes, added to c, and what they held before it.
  function LastContents(defs: Definitions, c: Contents, rows: seq<RowChange>): Contents
    decreases |rows|
  {
    if rows == [] then c else LastContents(defs, c + Left(defs, rows[0]), rows[1..])
  }

  function FirstContents(defs: Definitions, rows: seq<RowChange>): Contents {
    if rows == [] then map[] else FirstContents(defs, rows[1..]) + Found(defs, rows[0])
  }

  function Replayed(defs: Definitions, c: Contents, order: seq<RowChange>): Contents
    decreases |order|
  {
    if order == [] then c else Replayed(defs, Undone(defs, c, order[0]), order[1..])
  }

  function Backwards(rows: seq<RowChange>): seq<RowChange> {
    if rows == [] then [] else Backwards(rows[1..]) + [rows[0]]
  }

  // The changes in the order the plan undoes them: groups in scan order, each last change first.
  function PlanOrder(groups: seq<seq<RowChange>>): seq<RowChange> {
    if groups == [] then [] else Backwards(groups[0]) + PlanOrder(groups[1..])
  }

  // Replayed on the keys that rows touch, the undo statements of the changes in groups bring every key back to
  // its first content. The groups may hold fewer changes than were performed.
  predicate KeptReplayRestores(defs: Definitions, rows: seq<RowChange>, groups: seq<seq<RowChange>>) {
    Replayed(defs, LastContents(defs, map[], rows), PlanOrder(groups)) == FirstContents(defs, rows)
  }

  predicate ReplayRestores(defs: Definitions, groups: seq<seq<RowChange>>) {
    KeptReplayRestores(defs, Flatten(groups), groups)
  }

  // ---------- contents against tables ----------

  predicate WellKeyed(defs: Definitions, c: Contents) {
    forall k, x :: k in c && x in c[k] ==> KeyIn(defs, k.table, x) == k
  }

  ghost predicate RowsDescribed(defs: Definitions, t: TableId, m: multiset<Row>, c: Contents) {
    forall x :: KeyIn(defs, t, x) in c ==> m[x] == c[KeyIn(defs, t, x)][x]
  }

  // c says exactly what s holds under the keys of c.
  ghost predicate Described(defs: Definitions, s: State, c: Contents) {
    WellKeyed(defs, c) && (forall k :: k in c ==> k.table in s) && forall t :: t in s ==> RowsDescribed(defs, t, s[t], c)
  }

  ghost predicate RowsAgreeOff(defs: Definitions, t: TableId, m: multiset<Row>, m': multiset<Row>, keys: set<Key>) {
    forall x :: KeyIn(defs, t, x) !in keys ==> m[x] == m'[x]
  }

  // s and s' have the same tables and the same rows under all other keys.
  ghost predicate AgreeOff(defs: Definitions, s: State, s': State, keys: set<Key>) {
    s.Keys == s'.Keys && forall t :: t in s ==> RowsAgreeOff(defs, t, s[t], s'[t], keys)
  }

  // The keys a change touches are keys of c.
  predicate Covers(defs: Definitions, c: Contents, rc: RowChange) {
    Left(defs, rc).Keys <= c.Keys
  }

  predicate CoversAll(defs: Definitions, c: Contents, rows: seq<RowChange>) {
    forall i :: 0 <= i < |rows| ==> Covers(defs, c, rows[i])
  }

  lemma SameKey(defs: Definitions, t: TableId, x: Row, y: Row)
    requires t in defs && |y| == |defs[t].columns|
    ensures SameAt(KeyPositions(defs[t]), x, y) <==> KeyIn(defs, t, x) == KeyIn(defs, t, y)
  {
    var idxs := KeyPositions(defs[t]);
    assert forall k :: 0 <= k < |idxs| ==> KeyIn(defs, t, y).at[k] == Some(y[idxs[k]]);
    if KeyIn(defs, t, x) == KeyIn(defs, t, y) {
      forall k | 0 <= k < |idxs| ensures idxs[k] < |x| && x[idxs[k]] == y[idxs[k]] {
        assert KeyIn(defs, t, x).at[k] == KeyIn(defs, t, y).at[k];
      }
    }
  }

  lemma SelectedIsContent(defs: Definitions, m: multiset<Row>, c: Contents, rc: RowChange)
    requires Clean(defs, rc) && !rc.action.Delete? && AfterKey(defs, rc) in c
    requires WellKeyed(defs, c) && RowsDescribed(defs, TableOf(rc), m, c)
    ensures Selected(defs, rc, m) == c[AfterKey(defs, rc)]
  {
    forall x ensures Selected(defs, rc, m)[x] == c[AfterKey(defs, rc)][x] {
      SelectsByKey(defs, rc, x);
      SameKey(defs, TableOf(rc), x, RowOf(rc.after));
      if KeyIn(defs, TableOf(rc), x) != AfterKey(defs, rc) { assert x !in c[AfterKey(defs, rc)]; }
    }
  }

  // ---------- one undo statement ----------

  lemma PutWellKeyed(defs: Definitions, c: Contents, k: Key, m: multiset<Row>)
    requires WellKeyed(defs, c) && forall x :: x in m ==> KeyIn(defs, k.table, x) == k
    ensures WellKeyed(defs, c[k := m])
  {
    forall j, x | j in c[k := m] && x in c[k := m][j] ensures KeyIn(defs, j.table, x) == j {
      if j != k { assert x in c[j]; }
    }
  }

  lemma SameKeys(c: Contents, k: Key, m: multiset<Row>)
    requires k in c
    ensures c[k := m].Keys == c.Keys
  {
  }

  lemma DeleteUndoneWellKeyed(defs: Definitions, c: Contents, rc: RowChange)
    requires rc.action.Delete? && BeforeKey(defs, rc) in c && WellKeyed(defs, c)
    ensures WellKeyed(defs, Undone(defs, c, rc)) && Undone(defs, c, rc).Keys == c.Keys
  {
    var k, b := BeforeKey(defs, rc), RowOf(rc.before);
    forall x | x in Content(c, k) + multiset{b} ensures KeyIn(defs, k.table, x) == k {
      if x != b { assert x in c[k]; }
    }
    PutWellKeyed(defs, c, k, Content(c, k) + multiset{b});
    SameKeys(c, k, Content(c, k) + multiset{b});
  }

  lemma UpdateUndoneWellKeyed(defs: Definitions, c: Contents, rc: RowChange)
    requires rc.action.Update? && BeforeKey(defs, rc) in c && AfterKey(defs, rc) in c && WellKeyed(defs, c)
    ensures WellKeyed(defs, Undone(defs, c, rc)) && Undone(defs, c, rc).Keys == c.Keys
  {
    var k, b := BeforeKey(defs, rc), RowOf(rc.before);
    var moved := c[AfterKey(defs, rc) := multiset{}];
    PutWellKeyed(defs, c, AfterKey(defs, rc), multiset{});
    SameKeys(c, AfterKey(defs, rc), multiset{});
    var m := Content(moved, k) + Copies(b, |Content(c, AfterKey(defs, rc))|);
    forall x | x in m ensures KeyIn(defs, k.table, x) == k {
      if x != b { assert x in moved[k]; }
    }
    PutWellKeyed(defs, moved, k, m);
    SameKeys(moved, k, m);
  }

  lemma UndoneWellKeyed(defs: Definitions, c: Contents, rc: RowChange)
    requires Clean(defs, rc) && Covers(defs, c, rc) && WellKeyed(defs, c)
    ensures WellKeyed(defs, Undone(defs, c, rc)) && Undone(defs, c, rc).Keys == c.Keys
  {
    TouchedIn(defs, c, rc);
    match rc.action
    case Delete => DeleteUndoneWellKeyed(defs, c, rc);
    case Insert =>
      PutWellKeyed(defs, c, AfterKey(defs, rc), multiset{});
      SameKeys(c, AfterKey(defs, rc), multiset{});
    case Update => UpdateUndoneWellKeyed(defs, c, rc);
  }

  lemma TouchedIn(defs: Definitions, c: Contents, rc: RowChange)
    requires Covers(defs, c, rc)
    ensures rc.action.Delete? || rc.action.Update? ==> BeforeKey(defs, rc) in c
    ensures rc.action.Insert? || rc.action.Update? ==> AfterKey(defs, rc) in c
  {
    assert rc.action.Delete? || rc.action.Update? ==> BeforeKey(defs, rc) in Left(defs, rc).Keys;
    assert rc.action.Insert? || rc.action.Update? ==> AfterKey(defs, rc) in Left(defs, rc).Keys;
  }

  // Replacing the rows hit by n copies of b, row by row.
  lemma ReplacedAt(m: multiset<Row>, hit: multiset<Row>, b: Row, n: nat, x: Row)
    requires hit <= m
    ensures (m - hit + Copies(b, n))[x] == m[x] - hit[x] + (if x == b then n else 0)
  {
  }

  lemma UndoneInsertAt(defs: Definitions, m: multiset<Row>, c: Contents, rc: RowChange, x: Row)
    requires Clean(defs, rc) && rc.action.Insert? && Covers(defs, c, rc)
    requires WellKeyed(defs, c) && RowsDescribed(defs, TableOf(rc), m, c)
    ensures var k := KeyIn(defs, TableOf(rc), x);
      RowsReversed(defs, m, rc)[x] == if k in c then Undone(defs, c, rc)[k][x] else m[x]
  {
    SelectedIsContent(defs, m, c, rc);
    assert RowsReversed(defs, m, rc)[x] == m[x] - c[AfterKey(defs, rc)][x];
    if x in c[AfterKey(defs, rc)] { assert KeyIn(defs, TableOf(rc), x) == AfterKey(defs, rc); }
  }

  lemma UndoneUpdateContent(defs: Definitions, c: Contents, rc: RowChange, k: Key, x: Row)
    requires rc.action.Update? && Covers(defs, c, rc) && k in c
    ensures k in Undone(defs, c, rc)
    ensures Undone(defs, c, rc)[k][x] == (if k == AfterKey(defs, rc) then 0 else c[k][x])
      + (if k == BeforeKey(defs, rc) && x == RowOf(rc.before) then |c[AfterKey(defs, rc)]| else 0)
  {
    assert AfterKey(defs, rc) in Left(defs, rc).Keys && BeforeKey(defs, rc) in Left(defs, rc).Keys;
  }

  lemma UndoneUpdateAt(defs: Definitions, m: multiset<Row>, c: Contents, rc: RowChange, x: Row)
    requires Clean(defs, rc) && rc.action.Update? && Covers(defs, c, rc)
    requires WellKeyed(defs, c) && RowsDescribed(defs, TableOf(rc), m, c)
    ensures var k := KeyIn(defs, TableOf(rc), x);
      RowsReversed(defs, m, rc)[x] == if k in c then Undone(defs, c, rc)[k][x] else m[x]
  {
    assert AfterKey(defs, rc) in Left(defs, rc).Keys && BeforeKey(defs, rc) in Left(defs, rc).Keys;
    SelectedIsContent(defs, m, c, rc);
    var k, hit := KeyIn(defs, TableOf(rc), x), c[AfterKey(defs, rc)];
    ReplacedAt(m, hit, RowOf(rc.before), |hit|, x);
    assert x in hit ==> k == AfterKey(defs, rc);
    if k in c { UndoneUpdateContent(defs, c, rc, k, x); }
  }

  lemma UndoneDeleteAt(defs: Definitions, m: multiset<Row>, c: Contents, rc: RowChange, x: Row)
    requires rc.action.Delete? && Clean(defs, rc) && Covers(defs, c, rc)
    requires RowsDescribed(defs, TableOf(rc), m, c)
    ensures var k := KeyIn(defs, TableOf(rc), x);
      RowsReversed(defs, m, rc)[x] == if k in c && k in Undone(defs, c, rc) then Undone(defs, c, rc)[k][x] else m[x]
  {
    assert BeforeKey(defs, rc) in Left(defs, rc).Keys;
    assert RowsReversed(defs, m, rc)[x] == m[x] + if x == RowOf(rc.before) then 1 else 0;
  }

  lemma UndoneAt(defs: Definitions, m: multiset<Row>, c: Contents, rc: RowChange, x: Row)
    requires Clean(defs, rc) && Covers(defs, c, rc)
    requires WellKeyed(defs, c) && RowsDescribed(defs, TableOf(rc), m, c)
    ensures Undone(defs, c, rc).Keys == c.Keys
    ensures var k := KeyIn(defs, TableOf(rc), x);
      RowsReversed(defs, m, rc)[x] == if k in c then Undone(defs, c, rc)[k][x] else m[x]
  {
    UndoneWellKeyed(defs, c, rc);
    match rc.action
    case Insert => UndoneInsertAt(defs, m, c, rc, x);
    case Update => UndoneUpdateAt(defs, m, c, rc, x);
    case Delete => UndoneDeleteAt(defs, m, c, rc, x);
  }

  lemma UndoneOwnTable(defs: Definitions, m: multiset<Row>, c: Contents, rc: RowChange)
    requires Clean(defs, rc) && Covers(defs, c, rc)
    requires WellKeyed(defs, c) && RowsDescribed(defs, TableOf(rc), m, c)
    ensures RowsDescribed(defs, TableOf(rc), RowsReversed(defs, m, rc), Undone(defs, c, rc))
    ensures RowsAgreeOff(defs, TableOf(rc), m, RowsReversed(defs, m, rc), c.Keys)
  {
    var t, m', c' := TableOf(rc), RowsReversed(defs, m, rc), Undone(defs, c, rc);
    forall x ensures m'[x] == if KeyIn(defs, t, x) in c then c'[KeyIn(defs, t, x)][x] else m[x] {
      UndoneAt(defs, m, c, rc, x);
    }
    UndoneWellKeyed(defs, c, rc);
  }

  lemma UndoneElsewhere(defs: Definitions, c: Contents, rc: RowChange, k: Key)
    requires k.table != TableOf(rc) && k in c
    ensures k in Undone(defs, c, rc) && Undone(defs, c, rc)[k] == c[k]
  {
    assert k != BeforeKey(defs, rc) && k != AfterKey(defs, rc);
  }

  lemma UndoneOtherTable(defs: Definitions, t: TableId, m: multiset<Row>, c: Contents, rc: RowChange)
    requires Clean(defs, rc) && Covers(defs, c, rc) && WellKeyed(defs, c)
    requires t != TableOf(rc) && RowsDescribed(defs, t, m, c)
    ensures RowsDescribed(defs, t, m, Undone(defs, c, rc))
  {
    UndoneWellKeyed(defs, c, rc);
    forall x | KeyIn(defs, t, x) in c ensures Undone(defs, c, rc)[KeyIn(defs, t, x)] == c[KeyIn(defs, t, x)] {
      UndoneElsewhere(defs, c, rc, KeyIn(defs, t, x));
    }
  }

  lemma PutDescribed(defs: Definitions, s: State, c: Contents, t: TableId, m': multiset<Row>, c': Contents)
    requires Described(defs, s, c) && t in s && WellKeyed(defs, c') && c'.Keys == c.Keys
    requires RowsDescribed(defs, t, m', c') && RowsAgreeOff(defs, t, s[t], m', c.Keys)
    requires forall t' :: t' in s && t' != t ==> RowsDescribed(defs, t', s[t'], c')
    ensures Described(defs, s[t := m'], c') && AgreeOff(defs, s, s[t := m'], c.Keys)
  {
    forall k | k in c' ensures k.table in s[t := m'] {
      assert k in c;
    }
  }

  // An undo statement does to the tables what the replay does to the contents.
  lemma UndoneDescribed(defs: Definitions, s: State, c: Contents, rc: RowChange)
    requires Clean(defs, rc) && Covers(defs, c, rc) && Described(defs, s, c) && TableOf(rc) in s
    ensures Described(defs, Reverse(defs, s, rc), Undone(defs, c, rc))
    ensures Undone(defs, c, rc).Keys == c.Keys && AgreeOff(defs, s, Reverse(defs, s, rc), c.Keys)
  {
    UndoneWellKeyed(defs, c, rc);
    UndoneOwnTable(defs, s[TableOf(rc)], c, rc);
    forall t | t in s && t != TableOf(rc) ensures RowsDescribed(defs, t, s[t], Undone(defs, c, rc)) {
      UndoneOtherTable(defs, t, s[t], c, rc);
    }
    PutDescribed(defs, s, c, TableOf(rc), RowsReversed(defs, s[TableOf(rc)], rc), Undone(defs, c, rc));
  }

  // ---------- the plan as a replay ----------

  // The statements qs undo the changes of order, one each.
  predicate UndoOf(defs: Definitions, qs: seq<Sql>, order: seq<RowChange>) {
    |qs| == |order| && forall i :: 0 <= i < |order| ==> Clean(defs, order[i]) && qs[i] == Reversal(defs, order[i])
  }

  // Executing undo statements in any order does to the tables what the replay does to the contents.
  lemma {:induction false} ReplayDescribed(defs: Definitions, s: State, c: Contents, qs: seq<Sql>, order: seq<RowChange>) returns (s': State)
    requires UndoOf(defs, qs, order) && CoversAll(defs, c, order) && Described(defs, s, c)
    ensures ExecuteAll(defs, s, qs) == Some(s')
    ensures Described(defs, s', Replayed(defs, c, order)) && Replayed(defs, c, order).Keys == c.Keys
    ensures AgreeOff(defs, s, s', c.Keys)
    decreases |order|
  {
    if order == [] {
      s' := s;
    } else {
      UndoRest(defs, qs, order);
      CoversRest(defs, c, c, order);
      var s1 := ReplayFirst(defs, s, c, order[0]);
      CoversRest(defs, c, Undone(defs, c, order[0]), order);
      s' := ReplayDescribed(defs, s1, Undone(defs, c, order[0]), qs[1..], order[1..]);
      AgreeThrough(defs, s, s1, s', c.Keys);
    }
  }

  lemma UndoRest(defs: Definitions, qs: seq<Sql>, order: seq<RowChange>)
    requires UndoOf(defs, qs, order) && order != []
    ensures Clean(defs, order[0]) && qs[0] == Reversal(defs, order[0]) && UndoOf(defs, qs[1..], order[1..])
  {
  }

  lemma CoversRest(defs: Definitions, c: Contents, c': Contents, order: seq<RowChange>)
    requires CoversAll(defs, c, order) && order != [] && c'.Keys == c.Keys
    ensures Covers(defs, c, order[0]) && CoversAll(defs, c', order[1..])
  {
    forall i | 0 <= i < |order| - 1 ensures Covers(defs, c', order[1..][i]) {
      assert Covers(defs, c, order[i + 1]);
    }
  }

  lemma ReplayFirst(defs: Definitions, s: State, c: Contents, rc: RowChange) returns (s1: State)
    requires Clean(defs, rc) && Covers(defs, c, rc) && Described(defs, s, c)
    ensures Execute(defs, s, Reversal(defs, rc)) == Some(s1) && Described(defs, s1, Undone(defs, c, rc))
    ensures Undone(defs, c, rc).Keys == c.Keys && AgreeOff(defs, s, s1, c.Keys)
  {
    TouchedTable(defs, s, c, rc);
    ReversalRows(defs, s, rc);
    s1 := Reverse(defs, s, rc);
    UndoneDescribed(defs, s, c, rc);
  }

  lemma TouchedTable(defs: Definitions, s: State, c: Contents, rc: RowChange)
    requires Clean(defs, rc) && Covers(defs, c, rc) && Described(defs, s, c)
    ensures TableOf(rc) in s
  {
    var k := if rc.action.Insert? then AfterKey(defs, rc) else BeforeKey(defs, rc);
    assert k in Left(defs, rc).Keys;
    assert k.table == TableOf(rc);
  }

  lemma AgreeThrough(defs: Definitions, s: State, s1: State, s2: State, keys: set<Key>)
    requires AgreeOff(defs, s, s1, keys) && AgreeOff(defs, s1, s2, keys)
    ensures AgreeOff(defs, s, s2, keys)
  {
    forall t | t in s ensures RowsAgreeOff(defs, t, s[t], s2[t], keys) {
      assert RowsAgreeOff(defs, t, s[t], s1[t], keys) && RowsAgreeOff(defs, t, s1[t], s2[t], keys);
    }
  }

  // ---------- the run as contents ----------

  ghost predicate AllKeyed(defs: Definitions, s: State) {
    forall t :: t in defs && t in s ==> Keyed(defs[t], s[t])
  }

  lemma OneRowPerKey(defs: Definitions, t: TableId, m: multiset<Row>, x: Row, y: Row)
    requires t in defs && Keyed(defs[t], m) && x in m && y in m && |y| == |defs[t].columns|
    requires KeyIn(defs, t, x) == KeyIn(defs, t, y)
    ensures x == y && m[x] == 1
  {
    SameKey(defs, t, x, y);
  }

  lemma InsertedAt(defs: Definitions, m: multiset<Row>, rc: RowChange, x: Row)
    requires Clean(defs, rc) && rc.action.Insert?
    requires Keyed(defs[TableOf(rc)], RowsApplied(m, rc))
    requires KeyIn(defs, TableOf(rc), x) == AfterKey(defs, rc)
    ensures m[x] == 0 && RowsApplied(m, rc)[x] == if x == RowOf(rc.after) then 1 else 0
  {
    var t, m', a := TableOf(rc), RowsApplied(m, rc), RowOf(rc.after);
    assert a in m' && m'[x] == m[x] + if x == a then 1 else 0;
    if x in m' { OneRowPerKey(defs, t, m', x, a); }
  }

  lemma DeletedAt(defs: Definitions, m: multiset<Row>, rc: RowChange, x: Row)
    requires Clean(defs, rc) && rc.action.Delete? && RowOf(rc.before) in m
    requires Keyed(defs[TableOf(rc)], m)
    requires KeyIn(defs, TableOf(rc), x) == BeforeKey(defs, rc)
    ensures RowsApplied(m, rc)[x] == 0 && m[x] == if x == RowOf(rc.before) then 1 else 0
  {
    var t, m', b := TableOf(rc), RowsApplied(m, rc), RowOf(rc.before);
    assert m'[x] == m[x] - if x == b then 1 else 0;
    if x in m { OneRowPerKey(defs, t, m, x, b); }
  }

  // Under the old key of an update: the old row before it, and after it the new row or nothing.
  lemma UpdatedAwayAt(defs: Definitions, m: multiset<Row>, rc: RowChange, x: Row)
    requires Clean(defs, rc) && rc.action.Update? && RowOf(rc.before) in m
    requires Keyed(defs[TableOf(rc)], m)
    requires KeyIn(defs, TableOf(rc), x) == BeforeKey(defs, rc)
    ensures m[x] == if x == RowOf(rc.before) then 1 else 0
    ensures BeforeKey(defs, rc) != AfterKey(defs, rc) ==> RowsApplied(m, rc)[x] == 0
  {
    var t, b := TableOf(rc), RowOf(rc.before);
    if x in m { OneRowPerKey(defs, t, m, x, b); }
    assert BeforeKey(defs, rc) != AfterKey(defs, rc) ==> x != RowOf(rc.after);
  }

  lemma UpdatedIntoAt(defs: Definitions, m: multiset<Row>, rc: RowChange, x: Row)
    requires Clean(defs, rc) && rc.action.Update? && RowOf(rc.before) in m
    requires Keyed(defs[TableOf(rc)], RowsApplied(m, rc))
    requires KeyIn(defs, TableOf(rc), x) == AfterKey(defs, rc)
    ensures RowsApplied(m, rc)[x] == if x == RowOf(rc.after) then 1 else 0
    ensures BeforeKey(defs, rc) != AfterKey(defs, rc) ==> m[x] == 0
  {
    var t, m', a := TableOf(rc), RowsApplied(m, rc), RowOf(rc.after);
    assert a in m';
    if x in m' { OneRowPerKey(defs, t, m', x, a); }
    assert BeforeKey(defs, rc) != AfterKey(defs, rc) ==> x != RowOf(rc.before) && m'[x] == m[x] + if x == a then 1 else 0;
  }

  lemma UpdateAppliedAt(defs: Definitions, m: multiset<Row>, rc: RowChange, x: Row)
    requires Clean(defs, rc) && rc.action.Update? && RowOf(rc.before) in m
    requires Keyed(defs[TableOf(rc)], m) && Keyed(defs[TableOf(rc)], RowsApplied(m, rc))
    ensures var k := KeyIn(defs, TableOf(rc), x);
      if k in Left(defs, rc) then k in Found(defs, rc) && RowsApplied(m, rc)[x] == Left(defs, rc)[k][x] && m[x] == Found(defs, rc)[k][x]
      else RowsApplied(m, rc)[x] == m[x]
  {
    var k := KeyIn(defs, TableOf(rc), x);
    if k == BeforeKey(defs, rc) { UpdatedAwayAt(defs, m, rc, x); }
    if k == AfterKey(defs, rc) { UpdatedIntoAt(defs, m, rc, x); }
  }

  // A change, row by row: what it left and found under its keys, and no difference elsewhere.
  lemma AppliedAt(defs: Definitions, m: multiset<Row>, rc: RowChange, x: Row)
    requires Clean(defs, rc) && (rc.action.Delete? || rc.action.Update? ==> RowOf(rc.before) in m)
    requires Keyed(defs[TableOf(rc)], m) && Keyed(defs[TableOf(rc)], RowsApplied(m, rc))
    ensures Left(defs, rc).Keys == Found(defs, rc).Keys
    ensures var k := KeyIn(defs, TableOf(rc), x);
      if k in Left(defs, rc) then RowsApplied(m, rc)[x] == Left(defs, rc)[k][x] && m[x] == Found(defs, rc)[k][x]
      else RowsApplied(m, rc)[x] == m[x]
  {
    var k := KeyIn(defs, TableOf(rc), x);
    SameTouched(defs, rc);
    if rc.action.Update? {
      UpdateAppliedAt(defs, m, rc, x);
    } else if rc.action.Insert? {
      if k == AfterKey(defs, rc) { InsertedAt(defs, m, rc, x); }
    } else {
      if k == BeforeKey(defs, rc) { DeletedAt(defs, m, rc, x); }
    }
  }

  lemma OverrideWellKeyed(defs: Definitions, c: Contents, d: Contents)
    requires WellKeyed(defs, c) && WellKeyed(defs, d)
    ensures WellKeyed(defs, c + d)
  {
  }

  lemma OverrideElsewhere(defs: Definitions, t: TableId, m: multiset<Row>, c: Contents, d: Contents)
    requires RowsDescribed(defs, t, m, c) && forall k :: k in d ==> k.table != t
    ensures RowsDescribed(defs, t, m, c + d)
  {
  }

  // Overriding contents by what one table now holds under some keys.
  lemma OverrideDescribed(defs: Definitions, s: State, c: Contents, t: TableId, m': multiset<Row>, d: Contents)
    requires Described(defs, s, c) && t in s && WellKeyed(defs, d) && forall k :: k in d ==> k.table == t
    requires forall x :: m'[x] == if KeyIn(defs, t, x) in d then d[KeyIn(defs, t, x)][x] else s[t][x]
    ensures Described(defs, s[t := m'], c + d) && AgreeOff(defs, s, s[t := m'], d.Keys)
  {
    var s', c' := s[t := m'], c + d;
    OverrideWellKeyed(defs, c, d);
    forall t' | t' in s' ensures RowsDescribed(defs, t', s'[t'], c') {
      assert RowsDescribed(defs, t', s[t'], c);
      if t' != t { OverrideElsewhere(defs, t', s[t'], c, d); }
    }
  }

  lemma PutBoth(j: Key, k: Key, m: multiset<Row>, m': multiset<Row>)
    ensures map[j := m][k := m'].Keys == {j, k}
  {
  }

  lemma SameTouched(defs: Definitions, rc: RowChange)
    ensures Left(defs, rc).Keys == Found(defs, rc).Keys
    ensures forall k :: k in Left(defs, rc) ==> k.table == TableOf(rc)
  {
    var j, k := BeforeKey(defs, rc), AfterKey(defs, rc);
    PutBoth(j, k, multiset{}, multiset{RowOf(rc.after)});
    PutBoth(k, j, multiset{}, multiset{RowOf(rc.before)});
    assert j.table == k.table == TableOf(rc);
  }

  lemma PairWellKeyed(defs: Definitions, t: TableId, x: Row, k: Key)
    ensures WellKeyed(defs, map[KeyIn(defs, t, x) := multiset{x}])
    ensures WellKeyed(defs, map[k := multiset{}])
    ensures WellKeyed(defs, map[k := multiset{}][KeyIn(defs, t, x) := multiset{x}])
  {
  }

  lemma TouchedWellKeyed(defs: Definitions, rc: RowChange)
    ensures WellKeyed(defs, Left(defs, rc)) && WellKeyed(defs, Found(defs, rc))
  {
    PairWellKeyed(defs, TableOf(rc), RowOf(rc.after), BeforeKey(defs, rc));
    PairWellKeyed(defs, TableOf(rc), RowOf(rc.before), AfterKey(defs, rc));
  }

  lemma LeftDescribed(defs: Definitions, s: State, c: Contents, rc: RowChange)
    requires Clean(defs, rc) && CanApply(s, rc) && AllKeyed(defs, s) && AllKeyed(defs, Apply(s, rc)) && Described(defs, s, c)
    ensures Described(defs, Apply(s, rc), c + Left(defs, rc))
    ensures AgreeOff(defs, s, Apply(s, rc), Left(defs, rc).Keys)
  {
    var t, m, d := TableOf(rc), s[TableOf(rc)], Left(defs, rc);
    SameTouched(defs, rc);
    TouchedWellKeyed(defs, rc);
    assert Keyed(defs[t], Apply(s, rc)[t]);
    forall x ensures RowsApplied(m, rc)[x] == if KeyIn(defs, t, x) in d then d[KeyIn(defs, t, x)][x] else m[x] {
      AppliedAt(defs, m, rc, x);
    }
    OverrideDescribed(defs, s, c, t, RowsApplied(m, rc), d);
  }

  lemma FoundDescribed(defs: Definitions, s: State, c: Contents, rc: RowChange)
    requires Clean(defs, rc) && CanApply(s, rc) && AllKeyed(defs, s) && AllKeyed(defs, Apply(s, rc)) && Described(defs, Apply(s, rc), c)
    ensures Described(defs, s, c + Found(defs, rc))
  {
    var t, m, d, s1 := TableOf(rc), s[TableOf(rc)], Found(defs, rc), Apply(s, rc);
    SameTouched(defs, rc);
    TouchedWellKeyed(defs, rc);
    assert Keyed(defs[t], s1[t]);
    forall x ensures m[x] == if KeyIn(defs, t, x) in d then d[KeyIn(defs, t, x)][x] else s1[t][x] {
      AppliedAt(defs, m, rc, x);
    }
    OverrideDescribed(defs, s1, c, t, m, d);
    PutBack(s, t, RowsApplied(m, rc), m);
  }

  lemma KeyedNext(defs: Definitions, s: State, rows: seq<RowChange>)
    requires rows != [] && Runs(s, rows) && StaysKeyed(defs, s, rows) && AllKeyed(defs, s)
    ensures AllKeyed(defs, Apply(s, rows[0])) && StaysKeyed(defs, Apply(s, rows[0]), rows[1..])
  {
  }

  lemma AgreeMore(defs: Definitions, s: State, s': State, keys: set<Key>, more: set<Key>)
    requires AgreeOff(defs, s, s', keys) && keys <= more
    ensures AgreeOff(defs, s, s', more)
  {
    forall t | t in s ensures RowsAgreeOff(defs, t, s[t], s'[t], more) {
      assert RowsAgreeOff(defs, t, s[t], s'[t], keys);
    }
  }

  // The keys a run touches.
  function Touched(defs: Definitions, rows: seq<RowChange>): set<Key> {
    if rows == [] then {} else Left(defs, rows[0]).Keys + Touched(defs, rows[1..])
  }

  lemma OverKeys(c: Contents, d: Contents)
    ensures (c + d).Keys == c.Keys + d.Keys
  {
  }

  lemma {:induction false} LastKeys(defs: Definitions, c: Contents, rows: seq<RowChange>)
    ensures LastContents(defs, c, rows).Keys == c.Keys + Touched(defs, rows)
    decreases |rows|
  {
    if rows != [] {
      var first := Left(defs, rows[0]);
      LastKeys(defs, c + first, rows[1..]);
      OverKeys(c, first);
      Union(c.Keys, first.Keys, Touched(defs, rows[1..]));
    }
  }

  lemma Union(a: set<Key>, b: set<Key>, c: set<Key>)
    ensures (a + b) + c == a + (b + c) && c + b == b + c
  {
  }

  lemma {:induction false} FirstKeys(defs: Definitions, rows: seq<RowChange>)
    ensures FirstContents(defs, rows).Keys == Touched(defs, rows)
  {
    if rows != [] {
      FirstKeys(defs, rows[1..]);
      SameTouched(defs, rows[0]);
      OverKeys(FirstContents(defs, rows[1..]), Found(defs, rows[0]));
      Union({}, Left(defs, rows[0]).Keys, Touched(defs, rows[1..]));
    }
  }

  lemma {:induction false} TouchedEach(defs: Definitions, rows: seq<RowChange>, i: nat)
    requires i < |rows|
    ensures Left(defs, rows[i]).Keys <= Touched(defs, rows)
  {
    if i > 0 { TouchedEach(defs, rows[1..], i - 1); }
  }

  // After a run in which keys stay unique, its touched keys hold what the changes say, and nothing else changed.
  lemma {:induction false} RunDescribed(defs: Definitions, s: State, c: Contents, rows: seq<RowChange>)
    requires AllClean(defs, rows) && Runs(s, rows) && StaysKeyed(defs, s, rows) && AllKeyed(defs, s) && Described(defs, s, c)
    ensures Described(defs, ApplyAll(s, rows), LastContents(defs, c, rows))
    ensures AgreeOff(defs, s, ApplyAll(s, rows), Touched(defs, rows))
    decreases |rows|
  {
    if rows != [] {
      var s1 := Apply(s, rows[0]);
      KeyedNext(defs, s, rows);
      LeftDescribed(defs, s, c, rows[0]);
      RunDescribed(defs, s1, c + Left(defs, rows[0]), rows[1..]);
      AgreeMore(defs, s, s1, Left(defs, rows[0]).Keys, Touched(defs, rows));
      AgreeMore(defs, s1, ApplyAll(s, rows), Touched(defs, rows[1..]), Touched(defs, rows));
      AgreeThrough(defs, s, s1, ApplyAll(s, rows), Touched(defs, rows));
    }
  }

  // Before it they held the first before-images.
  lemma {:induction false} StartDescribed(defs: Definitions, s: State, rows: seq<RowChange>)
    requires AllClean(defs, rows) && Runs(s, rows) && StaysKeyed(defs, s, rows) && AllKeyed(defs, s)
    ensures Described(defs, s, FirstContents(defs, rows))
  {
    if rows != [] {
      KeyedNext(defs, s, rows);
      StartDescribed(defs, Apply(s, rows[0]), rows[1..]);
      FoundDescribed(defs, s, FirstContents(defs, rows[1..]), rows[0]);
    }
  }

  // States that agree elsewhere are equal exactly when their contents under the keys are.
  lemma DescribedEqual(defs: Definitions, s: State, s': State, c: Contents, c': Contents)
    requires Described(defs, s, c) && Described(defs, s', c') && c.Keys == c'.Keys && AgreeOff(defs, s, s', c.Keys)
    ensures s == s' <==> c == c'
  {
    if s == s' {
      forall k | k in c ensures c[k] == c'[k] {
        forall x ensures c[k][x] == c'[k][x] {
          DescribedAt(defs, s, c, k, x);
          DescribedAt(defs, s, c', k, x);
        }
      }
    }
    if c == c' {
      forall t | t in s ensures s[t] == s'[t] {
        assert RowsDescribed(defs, t, s[t], c) && RowsDescribed(defs, t, s'[t], c) && RowsAgreeOff(defs, t, s[t], s'[t], c.Keys);
        assert forall x :: s[t][x] == s'[t][x];
      }
    }
  }

  lemma DescribedAt(defs: Definitions, s: State, c: Contents, k: Key, x: Row)
    requires Described(defs, s, c) && k in c
    ensures c[k][x] == if KeyIn(defs, k.table, x) == k then s[k.table][x] else 0
  {
    assert RowsDescribed(defs, k.table, s[k.table], c);
  }

  // ---------- the plan ----------

  lemma UndoAppend(defs: Definitions, qs: seq<Sql>, order: seq<RowChange>, qs': seq<Sql>, order': seq<RowChange>)
    requires UndoOf(defs, qs, order) && UndoOf(defs, qs', order')
    ensures UndoOf(defs, qs + qs', order + order')
  {
  }

  lemma {:induction false} ReversalsUndo(defs: Definitions, rows: seq<RowChange>)
    requires AllClean(defs, rows)
    ensures UndoOf(defs, Reversals(defs, rows), Backwards(rows))
    ensures forall rc :: rc in Backwards(rows) ==> rc in rows
  {
    if rows != [] {
      ReversalsUndo(defs, rows[1..]);
      UndoAppend(defs, Reversals(defs, rows[1..]), Backwards(rows[1..]), [Reversal(defs, rows[0])], [rows[0]]);
    }
  }

  lemma {:induction false} PlanUndoes(defs: Definitions, groups: seq<seq<RowChange>>)
    requires forall g :: 0 <= g < |groups| ==> AllClean(defs, groups[g])
    ensures UndoOf(defs, AllReversals(defs, groups), PlanOrder(groups))
    ensures forall rc :: rc in PlanOrder(groups) ==> rc in Flatten(groups)
  {
    if groups != [] {
      ReversalsUndo(defs, groups[0]);
      PlanUndoes(defs, groups[1..]);
      UndoAppend(defs, Reversals(defs, groups[0]), Backwards(groups[0]), AllReversals(defs, groups[1..]), PlanOrder(groups[1..]));
    }
  }

  lemma OrderCovered(defs: Definitions, c: Contents, rows: seq<RowChange>, order: seq<RowChange>)
    requires c.Keys == Touched(defs, rows) && forall rc :: rc in order ==> rc in rows
    ensures CoversAll(defs, c, order)
  {
    forall i | 0 <= i < |order| ensures Covers(defs, c, order[i]) {
      assert order[i] in rows;
      var j :| 0 <= j < |rows| && rows[j] == order[i];
      TouchedEach(defs, rows, j);
    }
  }

  // From a state described by its last contents, undo statements reach s exactly when the replay ends in its first.
  lemma ReplayIff(defs: Definitions, s: State, end: State, first: Contents, last: Contents, qs: seq<Sql>, order: seq<RowChange>)
    requires UndoOf(defs, qs, order) && CoversAll(defs, last, order)
    requires Described(defs, s, first) && Described(defs, end, last) && first.Keys == last.Keys && AgreeOff(defs, s, end, last.Keys)
    ensures ExecuteAll(defs, end, qs) == Some(s) <==> Replayed(defs, last, order) == first
  {
    var s' := ReplayDescribed(defs, end, last, qs, order);
    AgreeThrough(defs, s, end, s', last.Keys);
    DescribedEqual(defs, s, s', first, Replayed(defs, last, order));
  }

  lemma RunContents(defs: Definitions, s: State, rows: seq<RowChange>)
    requires AllClean(defs, rows) && Runs(s, rows) && StaysKeyed(defs, s, rows) && AllKeyed(defs, s)
    ensures var first, last := FirstContents(defs, rows), LastContents(defs, map[], rows);
      Described(defs, s, first) && Described(defs, ApplyAll(s, rows), last) && AgreeOff(defs, s, ApplyAll(s, rows), last.Keys)
      && first.Keys == last.Keys == Touched(defs, rows)
  {
    RunDescribed(defs, s, map[], rows);
    StartDescribed(defs, s, rows);
    LastKeys(defs, map[], rows);
    FirstKeys(defs, rows);
  }

  // After rows, undoing the changes of groups, some or all of rows.
  lemma KeptUndoneIff(defs: Definitions, s: State, rows: seq<RowChange>, groups: seq<seq<RowChange>>)
    requires forall g :: 0 <= g < |groups| ==> AllClean(defs, groups[g])
    requires forall rc :: rc in Flatten(groups) ==> rc in rows
    requires AllClean(defs, rows) && Runs(s, rows) && AllKeyed(defs, s) && StaysKeyed(defs, s, rows)
    ensures ExecuteAll(defs, ApplyAll(s, rows), AllReversals(defs, groups)) == Some(s) <==> KeptReplayRestores(defs, rows, groups)
  {
    var first, last := FirstContents(defs, rows), LastContents(defs, map[], rows);
    RunContents(defs, s, rows);
    PlanUndoes(defs, groups);
    OrderCovered(defs, last, rows, PlanOrder(groups));
    ReplayIff(defs, s, ApplyAll(s, rows), first, last, AllReversals(defs, groups), PlanOrder(groups));
  }

  /** The undo plans of any transactions, concatenated in scan order, restore the state before all of them
      exactly when their replay on the touched keys brings each key back to its first content. Keys are
      unique in every state. */
  lemma GroupsUndoneIff(defs: Definitions, s: State, groups: seq<seq<RowChange>>)
    requires forall g :: 0 <= g < |groups| ==> AllClean(defs, groups[g])
    requires AllClean(defs, Flatten(groups)) && Runs(s, Flatten(groups))
    requires AllKeyed(defs, s) && StaysKeyed(defs, s, Flatten(groups))
    ensures ExecuteAll(defs, ApplyAll(s, Flatten(groups)), AllReversals(defs, groups)) == Some(s)
      <==> ReplayRestores(defs, groups)
  {
    KeptUndoneIff(defs, s, Flatten(groups), groups);
  }

  // The scanned transactions hold all the changes performed, or, where truncated, the first of them.
  predicate CutFrom(txs: seq<Transaction>, full: seq<seq<RowChange>>) {
    |txs| == |full| && forall t :: 0 <= t < |txs| ==>
      txs[t].statements <= full[t] && (txs[t].truncated || txs[t].statements == full[t])
  }

  lemma {:induction false} CutKept(txs: seq<Transaction>, full: seq<seq<RowChange>>)
    requires CutFrom(txs, full)
    ensures forall rc :: rc in Flatten(Map(Rows, txs)) ==> rc in Flatten(full)
    ensures (forall t :: 0 <= t < |txs| ==> !txs[t].truncated) ==> full == Map(Rows, txs)
  {
    if txs != [] {
      MapRest(txs);
      CutKept(txs[1..], full[1..]);
      assert forall rc :: rc in txs[0].statements ==> rc in full[0];
    }
  }

  /** The same for the plan's text, printed, read back and executed, and for transactions the scan truncated:
      the plan knows the kept changes only, the tables have met all of them. */
  lemma TransactionsUndoneIff(
      defs: Definitions, schema: map<string, TableSchema>, txs: seq<Transaction>, full: seq<seq<RowChange>>, s: State)
    requires forall t :: 0 <= t < |txs| ==> Suitable(defs, schema, txs[t].statements)
    requires forall st :: st in Plan(txs, schema) ==> Successful(st)
    requires CutFrom(txs, full) && AllClean(defs, Flatten(full))
    requires Runs(s, Flatten(full)) && AllKeyed(defs, s) && StaysKeyed(defs, s, Flatten(full))
    ensures ExecuteText(defs, ApplyAll(s, Flatten(full)), Plan(txs, schema)) == Some(s)
      <==> KeptReplayRestores(defs, Flatten(full), Map(Rows, txs))
  {
    PlanReadsAs(defs, txs, schema);
    CutKept(txs, full);
    KeptUndoneIff(defs, s, Flatten(full), Map(Rows, txs));
    ExecuteRead(defs, ApplyAll(s, Flatten(full)), Plan(txs, schema), AllReversals(defs, Map(Rows, txs)));
  }

  // ---------- two changes to one row ----------

  predicate TouchesOnly(defs: Definitions, rc: RowChange, k: Key) {
    Left(defs, rc).Keys == {k}
  }

  // An undo statement on the one key it touches.
  function UndoneRow(rc: RowChange, m: multiset<Row>): multiset<Row> {
    match rc.action
    case Delete => m + multiset{RowOf(rc.before)}
    case Insert => multiset{}
    case Update => Copies(RowOf(rc.before), |m|)
    case Unknown(_) => m
  }

  lemma OnlyKey(defs: Definitions, rc: RowChange, k: Key)
    requires TouchesOnly(defs, rc, k)
    ensures !rc.action.Unknown?
    ensures rc.action.Delete? || rc.action.Update? ==> BeforeKey(defs, rc) == k
    ensures rc.action.Insert? || rc.action.Update? ==> AfterKey(defs, rc) == k
    ensures Left(defs, rc) == map[k := if rc.action.Delete? then multiset{} else multiset{RowOf(rc.after)}]
    ensures Found(defs, rc) == map[k := if rc.action.Insert? then multiset{} else multiset{RowOf(rc.before)}]
  {
    assert rc.action.Delete? || rc.action.Update? ==> BeforeKey(defs, rc) in Left(defs, rc).Keys;
    assert rc.action.Insert? || rc.action.Update? ==> AfterKey(defs, rc) in Left(defs, rc).Keys;
    assert rc.action.Unknown? ==> k !in Left(defs, rc).Keys;
  }

  lemma PutOne(k: Key, m: multiset<Row>, m': multiset<Row>)
    ensures map[k := m][k := m'] == map[k := m']
    ensures map[k := m] + map[k := m'] == map[k := m']
    ensures map[] + map[k := m] == map[k := m]
    ensures map[k := m] == map[k := m'] <==> m == m'
  {
    assert map[k := m][k] == m && map[k := m'][k] == m';
  }

  lemma UndoneAlone(defs: Definitions, rc: RowChange, k: Key, m: multiset<Row>)
    requires TouchesOnly(defs, rc, k)
    ensures Undone(defs, map[k := m], rc) == map[k := UndoneRow(rc, m)]
  {
    OnlyKey(defs, rc, k);
    var c := map[k := m];
    match rc.action
    case Delete => PutOne(k, m, m + multiset{RowOf(rc.before)});
    case Insert => PutOne(k, m, multiset{});
    case Update =>
      var copies := Copies(RowOf(rc.before), |m|);
      PutOne(k, m, multiset{});
      PutOne(k, multiset{}, multiset{} + copies);
      assert multiset{} + copies == copies;
    case Unknown(_) =>
  }

  lemma TwoContents(defs: Definitions, rc1: RowChange, rc2: RowChange, k: Key)
    requires TouchesOnly(defs, rc1, k) && TouchesOnly(defs, rc2, k)
    ensures LastContents(defs, map[], [rc1, rc2]) == map[k := Left(defs, rc2)[k]]
    ensures FirstContents(defs, [rc1, rc2]) == map[k := Found(defs, rc1)[k]]
  {
    OnlyKey(defs, rc1, k);
    OnlyKey(defs, rc2, k);
    var rows := [rc1, rc2];
    assert rows[1..] == [rc2] && [rc2][1..] == [];
    PutOne(k, Left(defs, rc1)[k], Left(defs, rc2)[k]);
    PutOne(k, Found(defs, rc2)[k], Found(defs, rc1)[k]);
    assert FirstContents(defs, [rc2]) == FirstContents(defs, []) + Found(defs, rc2);
    assert LastContents(defs, map[] + Left(defs, rc1), [rc2]) == LastContents(defs, Left(defs, rc1) + Left(defs, rc2), []);
  }

  lemma TwoReplayed(defs: Definitions, rc1: RowChange, rc2: RowChange, k: Key, m: multiset<Row>)
    requires TouchesOnly(defs, rc1, k) && TouchesOnly(defs, rc2, k)
    ensures Replayed(defs, map[k := m], [rc1, rc2]) == map[k := UndoneRow(rc2, UndoneRow(rc1, m))]
  {
    UndoneAlone(defs, rc1, k, m);
    UndoneAlone(defs, rc2, k, UndoneRow(rc1, m));
    var order, c1 := [rc1, rc2], Undone(defs, map[k := m], rc1);
    assert order[1..] == [rc2] && [rc2][1..] == [];
    assert Replayed(defs, map[k := m], order) == Replayed(defs, c1, [rc2]);
    assert Replayed(defs, c1, [rc2]) == Replayed(defs, Undone(defs, c1, rc2), []);
  }

  lemma BackwardsOne(rc: RowChange)
    ensures Backwards([rc]) == [rc]
  {
    assert [rc][1..] == [];
    assert Backwards([rc]) == Backwards([]) + [rc];
  }

  lemma TwoGroups(rc1: RowChange, rc2: RowChange)
    ensures Flatten([[rc1], [rc2]]) == [rc1, rc2] && PlanOrder([[rc1], [rc2]]) == [rc1, rc2]
  {
    var groups := [[rc1], [rc2]];
    assert groups[1..] == [[rc2]] && [[rc2]][1..] == [];
    assert Flatten([[rc2]]) == [rc2] + Flatten<RowChange>([]);
    assert Flatten(groups) == [rc1] + Flatten([[rc2]]);
    BackwardsOne(rc1);
    BackwardsOne(rc2);
    assert PlanOrder([[rc2]]) == [rc2] + PlanOrder([]);
    assert PlanOrder(groups) == [rc1] + PlanOrder([[rc2]]);
  }

  lemma PairReplay(defs: Definitions, rc1: RowChange, rc2: RowChange, k: Key)
    requires TouchesOnly(defs, rc1, k) && TouchesOnly(defs, rc2, k)
    ensures ReplayRestores(defs, [[rc1], [rc2]]) <==>
      UndoneRow(rc2, UndoneRow(rc1, Left(defs, rc2)[k])) == Found(defs, rc1)[k]
  {
    TwoGroups(rc1, rc2);
    TwoContents(defs, rc1, rc2, k);
    TwoReplayed(defs, rc1, rc2, k, Left(defs, rc2)[k]);
    PutOne(k, UndoneRow(rc2, UndoneRow(rc1, Left(defs, rc2)[k])), Found(defs, rc1)[k]);
  }

  lemma OneRow(x: Row, y: Row)
    ensures multiset{x} == multiset{y} <==> x == y
    ensures multiset{x} != multiset{}
    ensures Copies(x, 1) == multiset{x} && Copies(x, 0) == multiset{}
    ensures multiset{x} + multiset{y} != multiset{x} && multiset{} + multiset{x} == multiset{x}
  {
    assert x in multiset{x};
    assert (multiset{x} + multiset{y})[y] == multiset{x}[y] + 1;
  }

  // What undoing both leaves of the row's last content.
  lemma PairContent(rc1: RowChange, rc2: RowChange)
    requires !rc1.action.Unknown? && !rc2.action.Unknown?
    requires rc2.action.Insert? <==> rc1.action.Delete?
    requires !rc2.action.Insert? ==> RowOf(rc2.before) == RowOf(rc1.after)
    ensures var last := if rc2.action.Delete? then multiset{} else multiset{RowOf(rc2.after)};
      var first := if rc1.action.Insert? then multiset{} else multiset{RowOf(rc1.before)};
      UndoneRow(rc2, UndoneRow(rc1, last)) == first <==>
        (rc1.action.Insert? && rc2.action.Update?) || (rc1.action.Update? && RowOf(rc1.before) == RowOf(rc1.after))
  {
    var b1, b2, a2 := RowOf(rc1.before), RowOf(rc2.before), RowOf(rc2.after);
    OneRow(b1, b2);
    OneRow(b2, b1);
    OneRow(a2, b1);
    match rc1.action
    case Insert => assert UndoneRow(rc1, multiset{}) == multiset{} == UndoneRow(rc1, multiset{a2});
    case Update => assert UndoneRow(rc1, multiset{a2}) == multiset{b1} && UndoneRow(rc1, multiset{}) == multiset{};
    case Delete => assert rc2.action.Insert?;
  }

  /** Two transactions of one change each, to the same row without moving its key, are undone in scan order
      exactly when an insert is followed by an update, or the first change was an update that changed nothing. */
  lemma PairRestoredIff(defs: Definitions, rc1: RowChange, rc2: RowChange, k: Key)
    requires TouchesOnly(defs, rc1, k) && TouchesOnly(defs, rc2, k)
    requires Left(defs, rc1)[k] == Found(defs, rc2)[k]
    ensures ReplayRestores(defs, [[rc1], [rc2]]) <==>
      (rc1.action.Insert? && rc2.action.Update?) || (rc1.action.Update? && RowOf(rc1.before) == RowOf(rc1.after))
  {
    PairReplay(defs, rc1, rc2, k);
    OnlyKey(defs, rc1, k);
    OnlyKey(defs, rc2, k);
    OneRow(RowOf(rc1.after), RowOf(rc2.before));
    OneRow(RowOf(rc2.before), RowOf(rc1.after));
    PairContent(rc1, rc2);
  }
}
