/**
 The checkpointed executor (internal/executor/executor.go): batched transactions that can pause, fail and
 resume, against one sequential pass over the plan.
 */
module Executor {
  import opened Base
  import opened Generator

  const DEFAULT_BATCH_SIZE := 50

  datatype Plan = Plan(operationId: string, statements: seq<Statement>, batchSize: int)

  datatype ExecError = ExecError(statement: nat, sql: string, err: string)

  // What the server answers to one statement, as a function of the state it meets.
  datatype Outcome<D> = Done(db: D, rows: Option<int>) | Failed(db: D, err: string)

  type Server<!D> = (D, string) -> Outcome<D>

  datatype Checkpoint = Checkpoint(lastCompleted: int, total: nat, rows: int, errors: seq<ExecError>)

  datatype FinalReport = FinalReport(done: nat, total: nat, rows: int, errors: seq<ExecError>, paused: bool)

  const EMPTY_REPORT := FinalReport(0, 0, 0, [], false)

  datatype Failure =
    | NoFailure
    | BadPlan
    | InitFailed
    | LoadFailed
    | OpenFailed
    | BeginFailed
    | CommitFailed(lo: nat, hi: nat)
    | SaveFailed

  // How a batch ends: dropped without a trace (no failure means the run was paused), or committed.
  datatype BatchEnd = Dropped(failure: Failure) | Committed(saved: bool)

  // What the world does during one call: whether the server connects, from which statement on a cancellation is
  // seen, and at which batch starts opening or committing the transaction, and at which positions saving, fails.
  datatype Fate = Fate(connects: bool, cancelledAt: Option<nat>, beginFails: set<nat>, commitFails: set<nat>, saveFails: set<nat>)

  predicate Cancelled(fate: Fate, i: nat) {
    fate.cancelledAt.Some? && fate.cancelledAt.value <= i
  }

  predicate Smooth(fate: Fate) {
    fate.connects && fate.cancelledAt.None? && fate.beginFails == {} && fate.commitFails == {} && fate.saveFails == {}
  }

  // ---------- one sequential pass ----------

  // The database, the errors and row count so far, and the positions of the statements executed.
  datatype Ledger<D> = Ledger(db: D, errs: seq<ExecError>, rows: int, executed: seq<nat>)

  function StepOne<D>(server: Server<D>, stmts: seq<Statement>, i: nat, l: Ledger<D>): Ledger<D>
    requires i < |stmts|
  {
    if stmts[i].sql == "" then l
    else match server(l.db, stmts[i].sql)
      case Done(db, rows) => Ledger(db, l.errs, l.rows + (match rows case Some(n) => n case None => 0), l.executed + [i])
      case Failed(db, err) => Ledger(db, l.errs + [ExecError(i, stmts[i].sql, err)], l.rows, l.executed + [i])
  }

  function Sequential<D>(server: Server<D>, stmts: seq<Statement>, lo: nat, hi: nat, l: Ledger<D>): Ledger<D>
    requires lo <= hi <= |stmts|
    decreases hi - lo
  {
    if lo == hi then l else StepOne(server, stmts, hi - 1, Sequential(server, stmts, lo, hi - 1, l))
  }

  function Start<D>(db: D): Ledger<D> {
    Ledger(db, [], 0, [])
  }

  /** A pass may be interrupted anywhere and continued. */
  lemma {:induction false} SequentialSplit<D>(server: Server<D>, stmts: seq<Statement>, lo: nat, mid: nat, hi: nat, l: Ledger<D>)
    requires lo <= mid <= hi <= |stmts|
    ensures Sequential(server, stmts, lo, hi, l)
      == Sequential(server, stmts, mid, hi, Sequential(server, stmts, lo, mid, l))
    decreases hi - mid
  {
    if mid < hi { SequentialSplit(server, stmts, lo, mid, hi - 1, l); }
  }

  // ---------- what one call does ----------

  // What survives between calls: the database, the operation's checkpoint, and (as a history) the
  // positions committed so far.
  datatype Durable<D> = Durable(db: D, cp: Option<Checkpoint>, executed: seq<nat>)

  function CheckpointAt<D>(server: Server<D>, stmts: seq<Statement>, start: nat, saved: nat, from: Ledger<D>, cp: Option<Checkpoint>): Option<Checkpoint>
    requires start <= saved <= |stmts|
  {
    if saved == start then cp
    else
      var l := Sequential(server, stmts, start, saved, from);
      Some(Checkpoint(saved, |stmts|, l.rows, l.errs))
  }

  // A run from position start: it commits a prefix of the rest, and reports and saves what it committed.
  // Only a failed save leaves the checkpoint behind the database.
  ghost predicate Advanced<D>(
      server: Server<D>, stmts: seq<Statement>, start: nat, from: Ledger<D>,
      before: Durable<D>, after: Durable<D>, rep: FinalReport, failure: Failure)
    requires start <= |stmts|
  {
    if failure.OpenFailed? then after == before && rep == EMPTY_REPORT
    else
      && start <= rep.done <= |stmts| && rep.total == |stmts|
      && (var l := Sequential(server, stmts, start, rep.done, from);
        after.db == l.db && after.executed == l.executed && rep.errors == l.errs && rep.rows == l.rows)
      && (failure.NoFailure? ==> (rep.paused <==> rep.done < |stmts|))
      && (!failure.NoFailure? ==> !rep.paused)
      && (!failure.SaveFailed? ==> after.cp == CheckpointAt(server, stmts, start, rep.done, from, before.cp))
      && (failure.SaveFailed? ==> exists saved: nat {:trigger CheckpointAt(server, stmts, start, saved, from, before.cp)} ::
        start <= saved < rep.done && after.cp == CheckpointAt(server, stmts, start, saved, from, before.cp))
  }

  // Between batches: the first done statements are committed, and the checkpoint says saved of them are.
  ghost predicate Standing<D>(
      server: Server<D>, stmts: seq<Statement>, start: nat, from: Ledger<D>, before: Durable<D>, after: Durable<D>,
      errs: seq<ExecError>, rows: int, done: nat, saved: nat)
  {
    start <= saved <= done <= |stmts|
    && Ledger(after.db, errs, rows, after.executed) == Sequential(server, stmts, start, done, from)
    && after.cp == CheckpointAt(server, stmts, start, saved, from, before.cp)
  }

  // A run that stops with everything committed also saved, paused or not.
  lemma StoppedAdvanced<D>(
      server: Server<D>, stmts: seq<Statement>, start: nat, from: Ledger<D>, before: Durable<D>, after: Durable<D>,
      errs: seq<ExecError>, rows: int, done: nat, paused: bool, failure: Failure)
    requires Standing(server, stmts, start, from, before, after, errs, rows, done, done)
    requires start <= |stmts| && !failure.OpenFailed? && !failure.SaveFailed?
    requires failure.NoFailure? ==> (paused <==> done < |stmts|)
    requires !failure.NoFailure? ==> !paused
    ensures Advanced(server, stmts, start, from, before, after, FinalReport(done, |stmts|, rows, errs, paused), failure)
  {
  }

  // A run whose last save failed: the checkpoint stays at the position saved before.
  lemma UnsavedAdvanced<D>(
      server: Server<D>, stmts: seq<Statement>, start: nat, from: Ledger<D>, before: Durable<D>, after: Durable<D>,
      errs: seq<ExecError>, rows: int, done: nat, saved: nat)
    requires Standing(server, stmts, start, from, before, after, errs, rows, done, saved) && saved < done
    requires start <= |stmts|
    ensures Advanced(server, stmts, start, from, before, after, FinalReport(done, |stmts|, rows, errs, false), SaveFailed)
  {
  }

  // A committed batch, saved or not.
  lemma BatchStanding<D>(
      server: Server<D>, stmts: seq<Statement>, start: nat, from: Ledger<D>, before: Durable<D>, mid: Durable<D>, after: Durable<D>,
      errs: seq<ExecError>, rows: int, lo: nat, hi: nat, errs': seq<ExecError>, rows': int, saved: bool)
    requires Standing(server, stmts, start, from, before, mid, errs, rows, lo, lo) && lo < hi <= |stmts|
    requires Ledger(after.db, errs', rows', after.executed)
      == Sequential(server, stmts, lo, hi, Ledger(mid.db, errs, rows, mid.executed))
    requires after.cp == if saved then Some(Checkpoint(hi, |stmts|, rows', errs')) else mid.cp
    ensures Standing(server, stmts, start, from, before, after, errs', rows', hi, if saved then hi else lo)
  {
    SequentialSplit(server, stmts, start, lo, hi, from);
  }

  function StartIndex(cp: Option<Checkpoint>): nat {
    if cp.Some? && cp.value.lastCompleted > 0 then cp.value.lastCompleted else 0
  }

  function Carried<D>(d: Durable<D>): Ledger<D> {
    match d.cp
    case None => Ledger(d.db, [], 0, d.executed)
    case Some(cp) => Ledger(d.db, cp.errors, cp.rows, d.executed)
  }

  // One Resume call on a valid plan.
  ghost predicate Resumed<D>(
      server: Server<D>, stmts: seq<Statement>, before: Durable<D>, after: Durable<D>, rep: FinalReport, failure: Failure)
  {
    if failure.LoadFailed? then after == before && rep == EMPTY_REPORT
    else if StartIndex(before.cp) > |stmts| then
      after == before && failure.NoFailure?
      && rep == FinalReport(|stmts|, |stmts|, Carried(before).rows, Carried(before).errs, false)
    else Advanced(server, stmts, StartIndex(before.cp), Carried(before), before, after, rep, failure)
  }

  function Min(a: int, b: int): int {
    if a <= b then a else b
  }

  // Commits cover [lo, hi) in steps of size, only the last step before the plan's end being shorter.
  predicate Batched(commits: seq<(int, int)>, lo: int, hi: int, size: nat, total: nat) {
    (if commits == [] then lo == hi else commits[0].0 == lo && commits[|commits| - 1].1 == hi) &&
    (forall i :: 0 <= i < |commits| ==> commits[i].0 < total && commits[i].1 == Min(commits[i].0 + size, total)) &&
    (forall i :: 0 <= i < |commits| - 1 ==> commits[i].1 == commits[i + 1].0)
  }

  lemma BatchedAppend(commits: seq<(int, int)>, lo: nat, mid: nat, size: nat, total: nat)
    requires Batched(commits, lo, mid, size, total) && mid < total
    ensures Batched(commits + [(mid, Min(mid + size, total))], lo, Min(mid + size, total), size, total)
  {
  }

  function Normalized(plan: Plan): Result<Plan, Failure> {
    var p := if plan.batchSize == 0 then plan.(batchSize := DEFAULT_BATCH_SIZE) else plan;
    if plan.operationId == "" || p.batchSize < 1 then Err(BadPlan) else Ok(p)
  }

  class Executor<!D> {
    const server: Server<D>
    var db: D
    var store: map<string, Checkpoint>
    ghost var executed: seq<nat>

    constructor (server: Server<D>, db: D)
      ensures this.server == server && this.db == db && store == map[] && executed == []
    {
      this.server := server;
      this.db := db;
      store, executed := map[], [];
    }

    function Saved(op: string): Option<Checkpoint>
      reads this
    {
      if op in store then Some(store[op]) else None
    }

    ghost function View(op: string): Durable<D>
      reads this
    {
      Durable(db, Saved(op), executed)
    }

    // Writing a checkpoint may fail, leaving the store as it was.
    method Save(op: string, cp: Checkpoint, fails: bool) returns (ok: bool)
      modifies this`store
      ensures ok <==> !fails
      ensures store == if ok then old(store)[op := cp] else old(store)
    {
      ok := !fails;
      if ok {
        store := store[op := cp];
      }
    }

    // clears and inits say whether removing the old checkpoint and writing the first one succeed.
    method Run(plan0: Plan, clears: bool, inits: bool, fate: Fate)
      returns (rep: FinalReport, failure: Failure, ghost batches: seq<(int, int)>)
      modifies this
      ensures Normalized(plan0).Err? ==> failure == BadPlan && rep == EMPTY_REPORT && View(plan0.operationId) == old(View(plan0.operationId))
      ensures forall op :: op != plan0.operationId ==> Saved(op) == old(Saved(op))
      ensures Normalized(plan0).Ok? ==> (failure == InitFailed <==> !inits)
      ensures Normalized(plan0).Ok? && failure == InitFailed ==> db == old(db) && executed == old(executed)
      ensures Normalized(plan0).Ok? && failure != InitFailed ==>
        var stmts := plan0.statements;
        Advanced(server, stmts, 0, Ledger(old(db), [], 0, old(executed)),
          old(View(plan0.operationId)).(cp := Some(Checkpoint(0, |stmts|, 0, []))), View(plan0.operationId), rep, failure)
      ensures Normalized(plan0).Ok? && failure != InitFailed && !failure.OpenFailed? ==>
        Batched(batches, 0, rep.done, if plan0.batchSize == 0 then 50 else plan0.batchSize, |plan0.statements|)
      ensures Normalized(plan0).Ok? && inits && Smooth(fate) ==> failure == NoFailure && rep.done == |plan0.statements|
    {
      batches := [];
      if plan0.operationId == "" {
        return EMPTY_REPORT, BadPlan, batches;
      }
      var plan := if plan0.batchSize == 0 then plan0.(batchSize := DEFAULT_BATCH_SIZE) else plan0;
      if plan.batchSize < 1 {
        return EMPTY_REPORT, BadPlan, batches;
      }
      if clears {
        store := store - {plan.operationId};
      }
      var ok := Save(plan.operationId, Checkpoint(0, |plan.statements|, 0, []), !inits);
      if !ok {
        return EMPTY_REPORT, InitFailed, batches;
      }
      rep, failure, batches := RunFromIndex(plan, 0, [], 0, fate);
    }

    // loads says whether the checkpoint store can be read.
    method Resume(plan0: Plan, loads: bool, fate: Fate)
      returns (rep: FinalReport, failure: Failure, ghost batches: seq<(int, int)>)
      modifies this
      ensures forall op :: op != plan0.operationId ==> Saved(op) == old(Saved(op))
      ensures Normalized(plan0).Err? ==> failure == BadPlan && rep == EMPTY_REPORT && View(plan0.operationId) == old(View(plan0.operationId))
      ensures Normalized(plan0).Ok? ==> (failure == LoadFailed <==> !loads)
      ensures Normalized(plan0).Ok? ==>
        Resumed(server, plan0.statements, old(View(plan0.operationId)), View(plan0.operationId), rep, failure)
      ensures Normalized(plan0).Ok? && failure != LoadFailed && !failure.OpenFailed? && old(StartIndex(Saved(plan0.operationId))) <= |plan0.statements| ==>
        Batched(batches, old(StartIndex(Saved(plan0.operationId))), rep.done,
          if plan0.batchSize == 0 then 50 else plan0.batchSize, |plan0.statements|)
      ensures Normalized(plan0).Ok? && loads && Smooth(fate) ==> failure == NoFailure && rep.done == |plan0.statements|
    {
      batches := [];
      if plan0.operationId == "" {
        return EMPTY_REPORT, BadPlan, batches;
      }
      var plan := if plan0.batchSize == 0 then plan0.(batchSize := DEFAULT_BATCH_SIZE) else plan0;
      if plan.batchSize < 1 {
        return EMPTY_REPORT, BadPlan, batches;
      }
      if !loads {
        return EMPTY_REPORT, LoadFailed, batches;
      }
      var cp := Saved(plan.operationId);
      var startIdx: nat := 0;
      var carriedErrs: seq<ExecError> := [];
      var carriedRows := 0;
      if cp.Some? {
        if cp.value.lastCompleted > 0 {
          startIdx := cp.value.lastCompleted;
        }
        carriedErrs := cp.value.errors;
        carriedRows := cp.value.rows;
      }
      if startIdx > |plan.statements| {
        return FinalReport(|plan.statements|, |plan.statements|, carriedRows, carriedErrs, false), NoFailure, batches;
      }
      rep, failure, batches := RunFromIndex(plan, startIdx, carriedErrs, carriedRows, fate);
    }

    // The statements of one batch, inside its transaction. l is the ledger of everything committed so far.
    method ExecuteBatch(stmts: seq<Statement>, lo: nat, hi: nat, fate: Fate, ghost l: Ledger<D>)
      returns (txDb: D, batchErrs: seq<ExecError>, batchRows: int, aborted: bool, ghost ran: seq<nat>)
      requires lo < hi <= |stmts| && l.db == db
      ensures aborted <==> Cancelled(fate, hi - 1)
      ensures !aborted ==> var pass := Sequential(server, stmts, lo, hi, Ledger(db, [], 0, []));
        txDb == pass.db && batchErrs == pass.errs && batchRows == pass.rows
      ensures !aborted ==>
        Ledger(txDb, l.errs + batchErrs, l.rows + batchRows, ran) == Sequential(server, stmts, lo, hi, l)
    {
      txDb, batchErrs, batchRows, aborted, ran := db, [], 0, false, l.executed;
      var i := lo;
      while i < hi
        invariant lo <= i <= hi && (i > lo ==> !Cancelled(fate, i - 1))
        invariant var pass := Sequential(server, stmts, lo, i, Ledger(db, [], 0, []));
          txDb == pass.db && batchErrs == pass.errs && batchRows == pass.rows
        invariant Ledger(txDb, l.errs + batchErrs, l.rows + batchRows, ran) == Sequential(server, stmts, lo, i, l)
      {
        if Cancelled(fate, i) {
          aborted := true;
          return;
        }
        var stmt := stmts[i];
        if stmt.sql != "" {
          ran := ran + [i];
          match server(txDb, stmt.sql) {
            case Failed(d, err) =>
              txDb := d;
              batchErrs := batchErrs + [ExecError(i, stmt.sql, err)];
            case Done(d, n) =>
              txDb := d;
              if n.Some? {
                batchRows := batchRows + n.value;
              }
          }
        }
        i := i + 1;
      }
    }

    // One batch in its own transaction, followed by its checkpoint. A batch that is not committed leaves
    // everything as it was.
    method RunBatch(plan: Plan, lo: nat, hi: nat, errs: seq<ExecError>, rows: int, fate: Fate)
      returns (end: BatchEnd, errs': seq<ExecError>, rows': int)
      requires lo < hi <= |plan.statements|
      modifies this
      ensures end == if lo in fate.beginFails then Dropped(BeginFailed)
        else if Cancelled(fate, hi - 1) then Dropped(NoFailure)
        else if lo in fate.commitFails then Dropped(CommitFailed(lo, hi))
        else Committed(hi !in fate.saveFails)
      ensures end.Dropped? ==> db == old(db) && store == old(store) && executed == old(executed) && errs' == errs && rows' == rows
      ensures end.Committed? ==>
        Ledger(db, errs', rows', executed) == Sequential(server, plan.statements, lo, hi, Ledger(old(db), errs, rows, old(executed)))
      ensures end.Committed? && !end.saved ==> store == old(store)
      ensures end.Committed? && end.saved ==>
        store == old(store)[plan.operationId := Checkpoint(hi, |plan.statements|, rows', errs')]
    {
      errs', rows' := errs, rows;
      if lo in fate.beginFails {
        return Dropped(BeginFailed), errs', rows';
      }
      ghost var l := Ledger(db, errs, rows, executed);
      var txDb, batchErrs, batchRows, aborted, ran := ExecuteBatch(plan.statements, lo, hi, fate, l);
      if aborted {
        return Dropped(NoFailure), errs', rows';
      }
      if lo in fate.commitFails {
        return Dropped(CommitFailed(lo, hi)), errs', rows';
      }
      db, executed := txDb, ran;
      errs', rows' := errs + batchErrs, rows + batchRows;
      var saved := Save(plan.operationId, Checkpoint(hi, |plan.statements|, rows', errs'), hi in fate.saveFails);
      end := Committed(saved);
    }

    // The batches from completed on, until the plan ends or one is not committed and saved. The failure is
    // NoFailure at the end of the plan and when the run was paused.
    method RunBatches(plan: Plan, startIdx: nat, errs: seq<ExecError>, rows: int, fate: Fate, ghost before: Durable<D>)
      returns (completed: nat, errs': seq<ExecError>, rows': int, failure: Failure, ghost saved: nat, ghost batches: seq<(int, int)>)
      requires startIdx <= |plan.statements| && plan.batchSize >= 1 && before == View(plan.operationId)
      modifies this
      ensures Standing(server, plan.statements, startIdx, Ledger(before.db, errs, rows, before.executed), before,
        View(plan.operationId), errs', rows', completed, saved)
      ensures failure.NoFailure? || failure.BeginFailed? || failure.CommitFailed? || failure.SaveFailed?
      ensures (failure.SaveFailed? <==> saved < completed) && (!failure.NoFailure? && !failure.SaveFailed? ==> completed < |plan.statements|)
      ensures Batched(batches, startIdx, completed, plan.batchSize, |plan.statements|)
      ensures forall op :: op != plan.operationId ==> Saved(op) == old(Saved(op))
      ensures Smooth(fate) ==> failure.NoFailure? && completed == |plan.statements|
    {
      var stmts := plan.statements;
      completed, errs', rows', failure, saved, batches := startIdx, errs, rows, NoFailure, startIdx, [];
      ghost var from := Ledger(before.db, errs, rows, before.executed);
      while completed < |stmts|
        invariant Standing(server, stmts, startIdx, from, before, View(plan.operationId), errs', rows', completed, completed)
        invariant saved == completed && failure.NoFailure?
        invariant forall op :: op != plan.operationId ==> Saved(op) == old(Saved(op))
        invariant Batched(batches, startIdx, completed, plan.batchSize, |stmts|)
        decreases |stmts| - completed
      {
        if Cancelled(fate, completed) {
          return;
        }
        var batchEnd := completed + plan.batchSize;
        if batchEnd > |stmts| {
          batchEnd := |stmts|;
        }
        assert batchEnd == Min(completed + plan.batchSize, |stmts|);
        ghost var mid, errs0, rows0 := View(plan.operationId), errs', rows';
        var end;
        end, errs', rows' := RunBatch(plan, completed, batchEnd, errs', rows', fate);
        if end.Dropped? {
          failure := end.failure;
          return;
        }
        BatchStanding(server, stmts, startIdx, from, before, mid, View(plan.operationId), errs0, rows0, completed, batchEnd, errs', rows', end.saved);
        BatchedAppend(batches, startIdx, completed, plan.batchSize, |stmts|);
        batches := batches + [(completed, batchEnd)];
        completed := batchEnd;
        if !end.saved {
          failure := SaveFailed;
          return;
        }
        saved := completed;
      }
    }

    method RunFromIndex(plan: Plan, startIdx: nat, initialErrs: seq<ExecError>, initialRows: int, fate: Fate)
      returns (rep: FinalReport, failure: Failure, ghost batches: seq<(int, int)>)
      requires startIdx <= |plan.statements| && plan.batchSize >= 1
      modifies this
      ensures !failure.LoadFailed? && !failure.InitFailed? && !failure.BadPlan?
      ensures Advanced(server, plan.statements, startIdx, Ledger(old(db), initialErrs, initialRows, old(executed)),
        old(View(plan.operationId)), View(plan.operationId), rep, failure)
      ensures !failure.OpenFailed? ==>
        Batched(batches, startIdx, rep.done, plan.batchSize, |plan.statements|)
      ensures forall op :: op != plan.operationId ==> Saved(op) == old(Saved(op))
      ensures Smooth(fate) ==> failure.NoFailure? && rep.done == |plan.statements|
    {
      batches := [];
      if !fate.connects {
        return EMPTY_REPORT, OpenFailed, batches;
      }
      ghost var before, from := View(plan.operationId), Ledger(db, initialErrs, initialRows, executed);
      var total := |plan.statements|;
      var completed, errs, rows;
      ghost var saved;
      completed, errs, rows, failure, saved, batches := RunBatches(plan, startIdx, initialErrs, initialRows, fate, before);
      var paused := failure.NoFailure? && completed < total;
      rep := FinalReport(completed, total, rows, errs, paused);
      if failure.SaveFailed? {
        UnsavedAdvanced(server, plan.statements, startIdx, from, before, View(plan.operationId), errs, rows, completed, saved);
      } else {
        StoppedAdvanced(server, plan.statements, startIdx, from, before, View(plan.operationId), errs, rows, completed, paused, failure);
      }
    }
  }

  // ---------- any number of calls ----------

  // The checkpoint describes exactly what a sequential pass from db0 up to it has done.
  ghost predicate Consistent<D>(server: Server<D>, stmts: seq<Statement>, db0: D, d: Durable<D>) {
    && d.cp.Some? && 0 <= d.cp.value.lastCompleted <= |stmts|
    && Sequential(server, stmts, 0, d.cp.value.lastCompleted, Start(db0))
      == Ledger(d.db, d.cp.value.errors, d.cp.value.rows, d.executed)
  }

  // The statements between two positions are all empty.
  predicate NothingBetween(stmts: seq<Statement>, lo: nat, hi: nat)
    requires hi <= |stmts|
  {
    forall i :: lo <= i < hi ==> stmts[i].sql == ""
  }

  lemma {:induction false} ExecutedGrows<D>(server: Server<D>, stmts: seq<Statement>, lo: nat, hi: nat, l: Ledger<D>)
    requires lo <= hi <= |stmts|
    ensures |Sequential(server, stmts, lo, hi, l).executed| >= |l.executed|
    ensures |Sequential(server, stmts, lo, hi, l).executed| == |l.executed| <==> NothingBetween(stmts, lo, hi)
    ensures NothingBetween(stmts, lo, hi) ==> Sequential(server, stmts, lo, hi, l) == l
    decreases hi - lo
  {
    if lo < hi { ExecutedGrows(server, stmts, lo, hi - 1, l); }
  }

  lemma AdvancedStart<D>(server: Server<D>, stmts: seq<Statement>, db0: D, before: Durable<D>, done: nat)
    requires Consistent(server, stmts, db0, before) && StartIndex(before.cp) <= done <= |stmts|
    ensures Sequential(server, stmts, StartIndex(before.cp), done, Carried(before)) == Sequential(server, stmts, 0, done, Start(db0))
    ensures var cp := CheckpointAt(server, stmts, StartIndex(before.cp), done, Carried(before), before.cp);
      cp.Some? && cp.value.lastCompleted == done
      && Sequential(server, stmts, 0, done, Start(db0)).errs == cp.value.errors
      && Sequential(server, stmts, 0, done, Start(db0)).rows == cp.value.rows
  {
    SequentialSplit(server, stmts, 0, StartIndex(before.cp), done, Start(db0));
  }

  /** A call keeps the checkpoint in step with the database exactly when its last save succeeded, or the
      batch whose save failed held only empty statements. */
  lemma ConsistentIff<D>(
      server: Server<D>, stmts: seq<Statement>, db0: D, before: Durable<D>, after: Durable<D>, rep: FinalReport, failure: Failure)
    requires Consistent(server, stmts, db0, before) && Resumed(server, stmts, before, after, rep, failure)
    ensures after.cp.Some? && 0 <= after.cp.value.lastCompleted <= |stmts|
    ensures failure.SaveFailed? ==> rep.done <= |stmts|
    ensures Consistent(server, stmts, db0, after)
      <==> (failure.SaveFailed? ==> NothingBetween(stmts, StartIndex(after.cp), rep.done))
  {
    var start := StartIndex(before.cp);
    if failure.SaveFailed? {
      var saved: nat :| start <= saved < rep.done
        && after.cp == CheckpointAt(server, stmts, start, saved, Carried(before), before.cp);
      AdvancedStart(server, stmts, db0, before, saved);
      AdvancedStart(server, stmts, db0, before, rep.done);
      SequentialSplit(server, stmts, 0, saved, rep.done, Start(db0));
      ExecutedGrows(server, stmts, saved, rep.done, Sequential(server, stmts, 0, saved, Start(db0)));
    } else if !failure.LoadFailed? && !failure.OpenFailed? {
      AdvancedStart(server, stmts, db0, before, rep.done);
    }
  }

  // ---------- what a failed save costs ----------

  // The positions of the non-empty statements from lo to hi.
  function NonEmpty(stmts: seq<Statement>, lo: nat, hi: nat): seq<nat>
    requires hi <= |stmts|
  {
    if lo >= hi then [] else NonEmpty(stmts, lo, hi - 1) + (if stmts[hi - 1].sql != "" then [hi - 1] else [])
  }

  lemma {:induction false} NonEmptyExact(stmts: seq<Statement>, lo: nat, hi: nat)
    requires hi <= |stmts|
    ensures Distinct(NonEmpty(stmts, lo, hi))
    ensures forall p :: p in NonEmpty(stmts, lo, hi) <==> lo <= p < hi && stmts[p].sql != ""
  {
    if lo < hi {
      NonEmptyExact(stmts, lo, hi - 1);
      assert hi - 1 !in NonEmpty(stmts, lo, hi - 1);
    }
  }

  lemma {:induction false} PassExecutes<D>(server: Server<D>, stmts: seq<Statement>, lo: nat, hi: nat, l: Ledger<D>)
    requires lo <= hi <= |stmts|
    ensures Sequential(server, stmts, lo, hi, l).executed == l.executed + NonEmpty(stmts, lo, hi)
    decreases hi - lo
  {
    if lo < hi {
      PassExecutes(server, stmts, lo, hi - 1, l);
      Assoc(l.executed, NonEmpty(stmts, lo, hi - 1), if stmts[hi - 1].sql != "" then [hi - 1] else []);
    } else {
      assert l.executed + [] == l.executed;
    }
  }

  lemma DistinctTogether(a: seq<nat>, b: seq<nat>)
    requires Distinct(a) && Distinct(b)
    ensures Distinct(a + b) <==> forall x :: x in a ==> x !in b
  {
    if x :| x in a && x in b {
      var i :| 0 <= i < |a| && a[i] == x;
      var j :| 0 <= j < |b| && b[j] == x;
      assert (a + b)[i] == (a + b)[|a| + j];
    }
    if forall x :: x in a ==> x !in b {
      forall i, j | 0 <= i < j < |a + b| ensures (a + b)[i] != (a + b)[j] {
        assert i < |a| ==> (a + b)[i] in a;
        assert j >= |a| ==> (a + b)[j] in b;
      }
    }
  }

  /** After a call whose last save failed, the next call commits some position a second time exactly when it
      gets to commit a non-empty statement of the batch whose save was missed. */
  lemma MissedSaveReplaysIff<D>(
      server: Server<D>, stmts: seq<Statement>, db0: D,
      before: Durable<D>, after: Durable<D>, rep: FinalReport, later: Durable<D>, rep': FinalReport, failure': Failure)
    requires Consistent(server, stmts, db0, before) && Resumed(server, stmts, before, after, rep, SaveFailed)
    requires Resumed(server, stmts, after, later, rep', failure') && !failure'.LoadFailed? && !failure'.OpenFailed?
    ensures after.cp.Some? && 0 <= after.cp.value.lastCompleted < rep.done <= |stmts| && rep'.done <= |stmts|
    ensures Distinct(later.executed) <==> NothingBetween(stmts, after.cp.value.lastCompleted, Min(rep.done, rep'.done))
  {
    ConsistentIff(server, stmts, db0, before, after, rep, SaveFailed);
    var start := StartIndex(before.cp);
    var saved: nat :| start <= saved < rep.done
      && after.cp == CheckpointAt(server, stmts, start, saved, Carried(before), before.cp);
    AdvancedStart(server, stmts, db0, before, saved);
    AdvancedStart(server, stmts, db0, before, rep.done);
    assert after.cp.value.lastCompleted == saved == StartIndex(after.cp);
    PassExecutes(server, stmts, 0, rep.done, Start(db0));
    assert [] + NonEmpty(stmts, 0, rep.done) == NonEmpty(stmts, 0, rep.done);
    assert after.executed == NonEmpty(stmts, 0, rep.done);
    PassExecutes(server, stmts, saved, rep'.done, Carried(after));
    NonEmptyExact(stmts, 0, rep.done);
    NonEmptyExact(stmts, saved, rep'.done);
    DistinctTogether(NonEmpty(stmts, 0, rep.done), NonEmpty(stmts, saved, rep'.done));
  }

  /** Such a call exists for every non-empty statement: its batch is committed, its save fails, checkpoint and
      database part, and resuming commits it again. */
  lemma MissedSaveReplays<D>(server: Server<D>, st: Statement, db0: D)
    requires st.sql != ""
    ensures var stmts := [st];
      var once := StepOne(server, stmts, 0, Start(db0));
      var before := Durable(db0, Some(Checkpoint(0, 1, 0, [])), []);
      var after := Durable(once.db, before.cp, [0]);
      var twice := StepOne(server, stmts, 0, Carried(after));
      var later := Durable(twice.db, Some(Checkpoint(1, 1, twice.rows, twice.errs)), [0, 0]);
      Consistent(server, stmts, db0, before) && !Consistent(server, stmts, db0, after)
      && Resumed(server, stmts, before, after, FinalReport(1, 1, once.rows, once.errs, false), SaveFailed)
      && Resumed(server, stmts, after, later, FinalReport(1, 1, twice.rows, twice.errs, false), NoFailure)
  {
    var stmts := [st];
    var once := StepOne(server, stmts, 0, Start(db0));
    var before := Durable(db0, Some(Checkpoint(0, 1, 0, [])), []);
    var after := Durable(once.db, before.cp, [0]);
    var twice := StepOne(server, stmts, 0, Carried(after));
    var cp := CheckpointAt(server, stmts, 0, 0, Carried(before), before.cp);
    assert cp == before.cp;
    assert Sequential(server, stmts, 0, 0, Carried(before)) == Carried(before) == Start(db0);
    assert Sequential(server, stmts, 0, 1, Carried(before)) == once && once.executed == [0];
    assert Sequential(server, stmts, 0, 0, Carried(after)) == Carried(after);
    assert Sequential(server, stmts, 0, 1, Carried(after)) == twice && twice.executed == [0, 0];
    assert Sequential(server, stmts, 0, 0, Start(db0)) == Start(db0);
    assert after.executed != [];
  }

  datatype Call = Call(rep: FinalReport, failure: Failure)

  // A history of calls on one operation: states[k] is what call k left behind.
  ghost predicate Campaign<D>(server: Server<D>, stmts: seq<Statement>, states: seq<Durable<D>>, calls: seq<Call>) {
    |states| == |calls| + 1 &&
    forall k :: 0 <= k < |calls| ==>
      !calls[k].failure.SaveFailed? && Resumed(server, stmts, states[k], states[k + 1], calls[k].rep, calls[k].failure)
  }

  lemma {:induction false} CampaignConsistent<D>(
      server: Server<D>, stmts: seq<Statement>, db0: D, states: seq<Durable<D>>, calls: seq<Call>, k: nat)
    requires Campaign(server, stmts, states, calls) && k <= |calls|
    requires Consistent(server, stmts, db0, states[0])
    ensures Consistent(server, stmts, db0, states[k])
  {
    if k > 0 {
      CampaignConsistent(server, stmts, db0, states, calls, k - 1);
      ConsistentIff(server, stmts, db0, states[k - 1], states[k], calls[k - 1].rep, calls[k - 1].failure);
    }
  }

  lemma {:induction false} ExecutedOnce<D>(server: Server<D>, stmts: seq<Statement>, hi: nat, db0: D)
    requires hi <= |stmts|
    ensures var e := Sequential(server, stmts, 0, hi, Start(db0)).executed;
      (forall i :: 0 <= i < |e| ==> e[i] < hi && stmts[e[i]].sql != "")
      && (forall i, j :: 0 <= i < j < |e| ==> e[i] < e[j])
      && (forall p :: 0 <= p < hi && stmts[p].sql != "" ==> p in e)
  {
    if hi > 0 { ExecutedOnce(server, stmts, hi - 1, db0); }
  }

  /** One run and any number of resumed calls, however they pause or fail and whatever their batch sizes,
      leave the database of a sequential pass up to the checkpoint, with no statement committed twice; a
      call that reports completion leaves the database, errors and row count of one whole pass. */
  lemma CampaignRefinesPass<D>(
      server: Server<D>, stmts: seq<Statement>, db0: D, states: seq<Durable<D>>, calls: seq<Call>, k: nat)
    requires Campaign(server, stmts, states, calls) && k < |calls|
    requires states[0] == Durable(db0, Some(Checkpoint(0, |stmts|, 0, [])), [])
    ensures Consistent(server, stmts, db0, states[k + 1])
    ensures Distinct(states[k + 1].executed)
    ensures calls[k].failure.NoFailure? && !calls[k].rep.paused ==>
      (forall p :: 0 <= p < |stmts| && stmts[p].sql != "" ==> p in states[k + 1].executed) &&
      Sequential(server, stmts, 0, |stmts|, Start(db0))
        == Ledger(states[k + 1].db, calls[k].rep.errors, calls[k].rep.rows, states[k + 1].executed)
  {
    CampaignConsistent(server, stmts, db0, states, calls, k);
    CampaignConsistent(server, stmts, db0, states, calls, k + 1);
    var d := states[k + 1];
    ExecutedOnce(server, stmts, d.cp.value.lastCompleted, db0);
    assert d.executed == Sequential(server, stmts, 0, d.cp.value.lastCompleted, Start(db0)).executed;
    if calls[k].failure.NoFailure? && !calls[k].rep.paused {
      AdvancedStart(server, stmts, db0, states[k], |stmts|);
      ExecutedOnce(server, stmts, |stmts|, db0);
    }
  }
}
