/**
 What the executor reports (internal/executor/executor.go), stated on the server's answers alone: the database
 reached, one error for each statement that failed, in order, and the sum of the rows affected.
 */
module Reports {
  import opened Base
  import opened Generator
  import opened Executor

  // dbs are the databases between statements: an empty statement changes nothing, any other leads to the
  // database that comes with the server's answer.
  ghost predicate Trace<D>(server: Server<D>, stmts: seq<Statement>, dbs: seq<D>, lo: nat, hi: nat) {
    lo <= hi <= |stmts| && hi < |dbs| &&
    forall i :: lo <= i < hi ==> dbs[i + 1] == if stmts[i].sql == "" then dbs[i] else server(dbs[i], stmts[i].sql).db
  }

  predicate Fails<D>(server: Server<D>, stmts: seq<Statement>, dbs: seq<D>, i: nat)
    requires i < |stmts| && i < |dbs|
  {
    stmts[i].sql != "" && server(dbs[i], stmts[i].sql).Failed?
  }

  // The error names a statement that failed, its text and what the server said.
  predicate Tells<D>(server: Server<D>, stmts: seq<Statement>, dbs: seq<D>, e: ExecError)
    requires e.statement < |stmts| && e.statement < |dbs|
  {
    Fails(server, stmts, dbs, e.statement)
    && e.sql == stmts[e.statement].sql && e.err == server(dbs[e.statement], stmts[e.statement].sql).err
  }

  // Exactly one error for each statement from lo to hi that failed, in their order.
  ghost predicate Reported<D>(server: Server<D>, stmts: seq<Statement>, dbs: seq<D>, lo: nat, hi: nat, errs: seq<ExecError>)
    requires hi <= |stmts| && hi < |dbs|
  {
    && (forall j :: 0 <= j < |errs| ==> lo <= errs[j].statement < hi && Tells(server, stmts, dbs, errs[j]))
    && (forall j, k :: 0 <= j < k < |errs| ==> errs[j].statement < errs[k].statement)
    && (forall i :: lo <= i < hi && Fails(server, stmts, dbs, i) ==> exists j :: 0 <= j < |errs| && errs[j].statement == i)
  }

  // The rows the server counted for one statement: none if it is empty, failed, or left them uncounted.
  function Counted<D>(server: Server<D>, stmts: seq<Statement>, dbs: seq<D>, i: nat): int
    requires i < |stmts| && i < |dbs|
  {
    if stmts[i].sql == "" then 0
    else match server(dbs[i], stmts[i].sql)
      case Done(_, Some(n)) => n
      case _ => 0
  }

  function Affected<D>(server: Server<D>, stmts: seq<Statement>, dbs: seq<D>, lo: nat, hi: nat): int
    requires hi <= |stmts| && hi < |dbs|
    decreases hi - lo
  {
    if lo >= hi then 0 else Counted(server, stmts, dbs, lo) + Affected(server, stmts, dbs, lo + 1, hi)
  }

  lemma {:induction false} AffectedLast<D>(server: Server<D>, stmts: seq<Statement>, dbs: seq<D>, lo: nat, hi: nat)
    requires lo <= hi < |stmts| && hi + 1 < |dbs|
    ensures Affected(server, stmts, dbs, lo, hi + 1) == Affected(server, stmts, dbs, lo, hi) + Counted(server, stmts, dbs, hi)
    decreases hi - lo
  {
    if lo < hi { AffectedLast(server, stmts, dbs, lo + 1, hi); }
  }

  lemma ReportedMore<D>(server: Server<D>, stmts: seq<Statement>, dbs: seq<D>, lo: nat, hi: nat, errs: seq<ExecError>, e: ExecError)
    requires lo <= hi < |stmts| && hi + 1 < |dbs| && Reported(server, stmts, dbs, lo, hi, errs)
    ensures !Fails(server, stmts, dbs, hi) ==> Reported(server, stmts, dbs, lo, hi + 1, errs)
    ensures e.statement == hi && Tells(server, stmts, dbs, e) ==> Reported(server, stmts, dbs, lo, hi + 1, errs + [e])
  {
    if e.statement == hi && Tells(server, stmts, dbs, e) {
      var all := errs + [e];
      assert all[|errs|] == e;
      forall i | lo <= i < hi && Fails(server, stmts, dbs, i) ensures exists j :: 0 <= j < |all| && all[j].statement == i {
        var j :| 0 <= j < |errs| && errs[j].statement == i;
        assert all[j] == errs[j];
      }
    }
  }

  /** A pass over the statements from lo to hi ends in the last database of its trace. It adds to the errors
      exactly one for each statement that failed, in order, and to the row count what the server counted. */
  lemma {:induction false} PassReports<D>(server: Server<D>, stmts: seq<Statement>, lo: nat, hi: nat, l: Ledger<D>, dbs: seq<D>)
    returns (errs: seq<ExecError>)
    requires Trace(server, stmts, dbs, lo, hi) && dbs[lo] == l.db
    ensures Sequential(server, stmts, lo, hi, l).db == dbs[hi]
    ensures Reported(server, stmts, dbs, lo, hi, errs) && Sequential(server, stmts, lo, hi, l).errs == l.errs + errs
    ensures Sequential(server, stmts, lo, hi, l).rows == l.rows + Affected(server, stmts, dbs, lo, hi)
    decreases hi - lo
  {
    if lo == hi {
      errs := [];
    } else {
      var i := hi - 1;
      var init := PassReports(server, stmts, lo, i, l, dbs);
      AffectedLast(server, stmts, dbs, lo, i);
      if Fails(server, stmts, dbs, i) {
        var e := ExecError(i, stmts[i].sql, server(dbs[i], stmts[i].sql).err);
        ReportedMore(server, stmts, dbs, lo, i, init, e);
        Assoc(l.errs, init, [e]);
        errs := init + [e];
      } else {
        ReportedMore(server, stmts, dbs, lo, i, init, ExecError(0, "", ""));
        errs := init;
      }
    }
  }

  /** Every pass has a trace. */
  lemma {:induction false} TraceOf<D>(server: Server<D>, stmts: seq<Statement>, hi: nat, db: D) returns (dbs: seq<D>)
    requires hi <= |stmts|
    ensures Trace(server, stmts, dbs, 0, hi) && dbs[0] == db && |dbs| == hi + 1
  {
    if hi == 0 {
      dbs := [db];
    } else {
      var init := TraceOf(server, stmts, hi - 1, db);
      var last := init[hi - 1];
      dbs := init + [if stmts[hi - 1].sql == "" then last else server(last, stmts[hi - 1].sql).db];
    }
  }

  /** What one call reports: the database and the errors and rows of the statements it committed, after those
      it was given. */
  lemma CallReports<D>(
      server: Server<D>, stmts: seq<Statement>, start: nat, from: Ledger<D>, before: Durable<D>, after: Durable<D>,
      rep: FinalReport, failure: Failure, dbs: seq<D>)
    returns (errs: seq<ExecError>)
    requires start <= |stmts| && Advanced(server, stmts, start, from, before, after, rep, failure) && !failure.OpenFailed?
    requires Trace(server, stmts, dbs, start, rep.done) && dbs[start] == from.db
    ensures after.db == dbs[rep.done] && rep.errors == from.errs + errs && Reported(server, stmts, dbs, start, rep.done, errs)
    ensures rep.rows == from.rows + Affected(server, stmts, dbs, start, rep.done)
  {
    errs := PassReports(server, stmts, start, rep.done, from, dbs);
  }

  /** However a plan was interrupted and resumed, on completion the report holds exactly one error for each
      statement that failed, in plan order, and the sum of all rows affected. */
  lemma CampaignReports<D>(
      server: Server<D>, stmts: seq<Statement>, db0: D, states: seq<Durable<D>>, calls: seq<Call>, k: nat, dbs: seq<D>)
    requires Campaign(server, stmts, states, calls) && k < |calls|
    requires states[0] == Durable(db0, Some(Checkpoint(0, |stmts|, 0, [])), [])
    requires calls[k].failure.NoFailure? && !calls[k].rep.paused
    requires Trace(server, stmts, dbs, 0, |stmts|) && dbs[0] == db0
    ensures states[k + 1].db == dbs[|stmts|] && Reported(server, stmts, dbs, 0, |stmts|, calls[k].rep.errors)
    ensures calls[k].rep.rows == Affected(server, stmts, dbs, 0, |stmts|)
  {
    CampaignRefinesPass(server, stmts, db0, states, calls, k);
    var errs := PassReports(server, stmts, 0, |stmts|, Start(db0), dbs);
    assert [] + errs == errs;
  }

  /** A plan is rejected exactly without an operation id or with a negative batch size; otherwise it keeps its
      statements and batch size, 50 where none is given. */
  lemma NormalizedExactly(plan: Plan)
    ensures Normalized(plan).Err? <==> plan.operationId == "" || plan.batchSize < 0
    ensures Normalized(plan).Ok? ==>
      Normalized(plan).value == Plan(plan.operationId, plan.statements, if plan.batchSize == 0 then 50 else plan.batchSize)
  {
  }
}
