/**
 The components together: an undo plan run by the checkpointed executor restores the tables, whatever pauses,
 failures and resumed calls it goes through, and so does the plan of the flashback command.
 */
module EndToEnd {
  import opened Base
  import opened Values
  import opened SqlText
  import opened Generator
  import opened Database
  import opened Undo
  import opened Flashback
  import opened Overlap
  import opened PrimaryKeys
  import opened SchemaCache
  import opened Executor

  // The database as a server: a statement that cannot be read or executed, or that a primary
  // key refuses, is an error and changes nothing.
  ghost function Answer(defs: Definitions, s: State, sql: string): Outcome<State> {
    match ReadSql(sql)
    case None => Failed(s, "unreadable")
    case Some(q) =>
      match Checked(defs, s, q)
      case None => Failed(s, "refused")
      case Some(s') => Done(s', None)
  }

  ghost function DatabaseServer(defs: Definitions): Server<State> {
    (s: State, sql: string) => Answer(defs, s, sql)
  }

  // A plan whose text runs through leads a sequential pass to the same tables, without errors.
  lemma {:induction false} PassRunsText(defs: Definitions, plan: seq<Statement>, lo: nat, l: Ledger<State>)
    requires lo <= |plan| && CheckedText(defs, l.db, plan[lo..]).Some?
    ensures var end := Sequential(DatabaseServer(defs), plan, lo, |plan|, l);
      Some(end.db) == CheckedText(defs, l.db, plan[lo..]) && end.errs == l.errs
    decreases |plan| - lo
  {
    if lo < |plan| {
      var server := DatabaseServer(defs);
      var l1 := StepOne(server, plan, lo, l);
      assert plan[lo..][1..] == plan[lo + 1..] && plan[lo..][0] == plan[lo];
      assert Sequential(server, plan, lo, lo, l) == l;
      assert Sequential(server, plan, lo, lo + 1, l) == l1;
      PassRunsText(defs, plan, lo + 1, l1);
      SequentialSplit(server, plan, lo, lo + 1, |plan|, l);
    }
  }

  /** A plan that restores the tables when executed as text restores them through the executor: when a call
      completes, however the calls before it paused or failed, the tables are restored, no error was recorded
      and no statement was committed twice. */
  lemma CampaignRestores(defs: Definitions, plan: seq<Statement>, s: State, end: State, states: seq<Durable<State>>, calls: seq<Call>, k: nat)
    requires CheckedText(defs, end, plan) == Some(s)
    requires Campaign(DatabaseServer(defs), plan, states, calls) && k < |calls|
    requires states[0] == Durable(end, Some(Checkpoint(0, |plan|, 0, [])), [])
    requires calls[k].failure.NoFailure? && !calls[k].rep.paused
    ensures states[k + 1].db == s && calls[k].rep.errors == [] && Distinct(states[k + 1].executed)
  {
    CampaignRefinesPass(DatabaseServer(defs), plan, end, states, calls, k);
    assert plan[0..] == plan;
    PassRunsText(defs, plan, 0, Start(end));
  }

  /** One transaction undone through the executor. */
  lemma UndoSurvivesPauses(
      defs: Definitions, schema: map<string, TableSchema>, tx: Transaction, max: int, s: State,
      states: seq<Durable<State>>, calls: seq<Call>, k: nat)
    requires Suitable(defs, schema, tx.statements)
    requires forall st :: st in UndoPlan(tx, schema, max) ==> Successful(st)
    requires Runs(s, tx.statements) && AllKeyed(defs, s) && StaysKeyed(defs, s, tx.statements)
    requires Campaign(DatabaseServer(defs), UndoPlan(tx, schema, max), states, calls) && k < |calls|
    requires states[0] == Durable(ApplyAll(s, tx.statements), Some(Checkpoint(0, |UndoPlan(tx, schema, max)|, 0, [])), [])
    requires calls[k].failure.NoFailure? && !calls[k].rep.paused
    ensures states[k + 1].db == s && calls[k].rep.errors == [] && Distinct(states[k + 1].executed)
  {
    TransactionChecked(defs, schema, tx, max, s);
    CampaignRestores(defs, UndoPlan(tx, schema, max), s, ApplyAll(s, tx.statements), states, calls, k);
  }

  // ---------- the flashback command ----------

  // The fetcher answers with a table's own definition or fails, and row events name the table's columns or none.
  ghost predicate Truthful(defs: Definitions, fetch: Fetcher, rows: seq<RowChange>) {
    forall rc :: rc in rows ==>
      TableOf(rc) in defs && Distinct(defs[TableOf(rc)].columns) && PrintableImages(rc)
      && (Fetched(fetch, rc) == None || Fetched(fetch, rc) == Some(defs[TableOf(rc)]))
      && (rc.columnNames == [] || rc.columnNames == defs[TableOf(rc)].columns)
  }

  lemma {:induction false} FillAppend(cache: Cache, a: seq<RowChange>, b: seq<RowChange>, fetch: Fetcher)
    ensures Fill(cache, a + b, fetch) == Fill(Fill(cache, a, fetch), b, fetch)
    decreases |b|
  {
    if b == [] {
      assert a + b == a;
    } else {
      var init, last := b[..|b| - 1], b[|b| - 1];
      FillAppend(cache, a, init, fetch);
      assert (a + b)[..|a + b| - 1] == a + init && (a + b)[|a + b| - 1] == last;
    }
  }

  lemma {:induction false} DefinitionsFill(txs: seq<Transaction>, fetch: Fetcher)
    ensures DefinitionsFor(txs, fetch) == Fill(map[], Flatten(Map(Rows, txs)), fetch)
  {
    if txs != [] {
      var init, last := txs[..|txs| - 1], txs[|txs| - 1];
      DefinitionsFill(init, fetch);
      assert Map(Rows, txs) == Map(Rows, init) + [last.statements];
      FlattenAppend(Map(Rows, init), [last.statements]);
      assert Flatten([last.statements]) == last.statements;
      FillAppend(map[], Flatten(Map(Rows, init)), last.statements, fetch);
    }
  }

  lemma {:induction false} InFlatten(txs: seq<Transaction>, t: nat, rc: RowChange)
    requires t < |txs| && rc in txs[t].statements
    ensures rc in Flatten(Map(Rows, txs))
  {
    assert Map(Rows, txs)[1..] == Map(Rows, txs[1..]);
    if t > 0 { InFlatten(txs[1..], t - 1, rc); }
  }

  lemma RowSuits(defs: Definitions, fetch: Fetcher, rows: seq<RowChange>, schema: Cache, rc: RowChange)
    requires Truthful(defs, fetch, rows) && rc in rows && Lookup(schema, rc) == Fetched(fetch, rc)
    ensures SchemaAgrees(defs, schema, rc) && PrintableImages(rc)
  {
  }

  lemma DefinitionsServe(txs: seq<Transaction>, fetch: Fetcher, rc: RowChange)
    requires DistinctKeys(Flatten(Map(Rows, txs))) && rc in Flatten(Map(Rows, txs))
    ensures Lookup(DefinitionsFor(txs, fetch), rc) == Fetched(fetch, rc)
  {
    var rows := Flatten(Map(Rows, txs));
    DefinitionsFill(txs, fetch);
    FillServes(map[], rows, rows, fetch);
  }

  lemma DefinitionsSuit(defs: Definitions, fetch: Fetcher, txs: seq<Transaction>, t: nat)
    requires t < |txs| && Truthful(defs, fetch, Flatten(Map(Rows, txs))) && DistinctKeys(Flatten(Map(Rows, txs)))
    ensures Suitable(defs, DefinitionsFor(txs, fetch), txs[t].statements)
  {
    var schema := DefinitionsFor(txs, fetch);
    forall i | 0 <= i < |txs[t].statements|
      ensures SchemaAgrees(defs, schema, txs[t].statements[i]) && PrintableImages(txs[t].statements[i])
    {
      var rc := txs[t].statements[i];
      InFlatten(txs, t, rc);
      DefinitionsServe(txs, fetch, rc);
      RowSuits(defs, fetch, Flatten(Map(Rows, txs)), schema, rc);
    }
  }

  /** What RunFlashback returns for the scanned transactions, truncated or not, executed as text, restores the
      tables on a server that enforces primary keys exactly when the replay of the kept changes does without
      crowding one, provided every statement came out without a warning. */
  lemma FlashbackRestoresIff(defs: Definitions, fetch: Fetcher, txs: seq<Transaction>, full: seq<seq<RowChange>>, s: State)
    requires Truthful(defs, fetch, Flatten(Map(Rows, txs))) && DistinctKeys(Flatten(Map(Rows, txs)))
    requires forall st :: st in Flashback.Plan(txs, DefinitionsFor(txs, fetch)) ==> Successful(st)
    requires CutFrom(txs, full) && AllClean(defs, Flatten(full))
    requires Runs(s, Flatten(full)) && AllKeyed(defs, s) && StaysKeyed(defs, s, Flatten(full))
    ensures CheckedText(defs, ApplyAll(s, Flatten(full)), Flashback.Plan(txs, DefinitionsFor(txs, fetch))) == Some(s)
      <==> CheckedReplayRestores(defs, Flatten(full), Map(Rows, txs))
  {
    forall t | 0 <= t < |txs| ensures Suitable(defs, DefinitionsFor(txs, fetch), txs[t].statements) {
      DefinitionsSuit(defs, fetch, txs, t);
    }
    TransactionsCheckedIff(defs, DefinitionsFor(txs, fetch), txs, full, s);
  }
}
