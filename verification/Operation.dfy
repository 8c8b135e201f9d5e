/**
 The recovery operation's state machine under races (internal/server/pitr/state.go, store.go, handler.go):
 any number of handlers hold snapshots of the status, possibly stale, and move the stored status by
 compare-and-swap.
 */
module Operation {
  import opened Base

  datatype OpState = Created | Scanning | Ready | Executing | Paused | Done | Failed | Blocked | Cancelled

  function Successors(from: OpState): seq<OpState> {
    match from
    case Created => [Scanning, Blocked, Failed]
    case Scanning => [Ready, Failed, Cancelled, Blocked]
    case Ready => [Executing, Cancelled, Scanning]
    case Executing => [Paused, Done, Failed, Blocked]
    case Paused => [Executing, Cancelled]
    case _ => []
  }

  predicate TransitionValid(from: OpState, to: OpState) {
    to in Successors(from)
  }

  predicate IsTerminal(s: OpState) {
    s.Done? || s.Failed? || s.Cancelled? || s.Blocked?
  }

  /** The terminal states are exactly those no transition leaves. */
  lemma TerminalIffStuck(s: OpState)
    ensures IsTerminal(s) <==> forall to :: !TransitionValid(s, to)
  {
    if !IsTerminal(s) {
      assert Successors(s)[0] in Successors(s);
      assert TransitionValid(s, Successors(s)[0]);
    }
  }

  /** Where each status can be entered from. */
  lemma EnteredFrom(from: OpState)
    ensures !TransitionValid(from, Created)
    ensures TransitionValid(from, Scanning) <==> from == Created || from == Ready
    ensures TransitionValid(from, Ready) <==> from == Scanning
    ensures TransitionValid(from, Executing) <==> from == Ready || from == Paused
    ensures TransitionValid(from, Paused) <==> from == Executing
    ensures TransitionValid(from, Done) <==> from == Executing
    ensures TransitionValid(from, Failed) <==> from == Created || from == Scanning || from == Executing
    ensures TransitionValid(from, Blocked) <==> from == Created || from == Scanning || from == Executing
    ensures TransitionValid(from, Cancelled) <==> from == Scanning || from == Ready || from == Paused
  {
  }

  // ---------- one compare-and-swap ----------

  datatype StoreError = StoreFailed

  // The stored row; history lists the statuses it has had, as a record of the run.
  class Row {
    var status: OpState
    ghost var history: seq<OpState>

    constructor (status: OpState)
      ensures this.status == status && history == [status]
    {
      this.status := status;
      history := [status];
    }

    // Writes the new status only while the stored one is still from. stored says whether the statement
    // succeeds; one that fails changes nothing.
    method UpdateIfStatus(to: OpState, from: OpState, stored: bool) returns (applied: Result<bool, StoreError>)
      modifies this
      ensures applied == if stored then Ok(old(status) == from) else Err(StoreFailed)
      ensures status == if applied == Ok(true) then to else old(status)
      ensures history == if applied == Ok(true) then old(history) + [to] else old(history)
    {
      if !stored {
        return Err(StoreFailed);
      }
      var hit := status == from;
      if hit {
        status := to;
        history := history + [to];
      }
      applied := Ok(hit);
    }
  }

  datatype Verdict = Won | Lost | Invalid | Unstored

  // A handler's copy of the operation.
  class Snapshot {
    var status: OpState

    constructor (status: OpState)
      ensures this.status == status
    {
      this.status := status;
    }

    // A transition that is invalid, lost or not stored leaves snapshot and row as they were.
    method TransitionTo(row: Row, to: OpState, stored: bool) returns (v: Verdict)
      modifies this, row
      ensures v == if !TransitionValid(old(status), to) then Invalid
        else if !stored then Unstored
        else if old(row.status) == old(status) then Won else Lost
      ensures v == Won ==> status == to && row.status == to && row.history == old(row.history) + [to]
      ensures v != Won ==> status == old(status) && row.status == old(row.status) && row.history == old(row.history)
    {
      var from := status;
      if !TransitionValid(from, to) {
        return Invalid;
      }
      status := to;
      var ok := row.UpdateIfStatus(to, from, stored);
      match ok {
        case Err(_) =>
          status := from;
          return Unstored;
        case Ok(hit) =>
          if !hit {
            status := from;
            return Lost;
          }
          return Won;
      }
    }

    // The fallback of a late completion event: a ready operation is treated as being in via. The handler goes
    // on unless the store failed; then the event is dropped, with its snapshot.
    method FallBack(row: Row, via: OpState, stored: bool) returns (goesOn: bool)
      modifies this, row
      ensures goesOn <==> old(status) != Ready || stored
      ensures status == if old(status) == Ready then via else old(status)
      ensures var applied := old(status) == Ready && stored && old(row.status) == Ready;
        row.status == (if applied then via else old(row.status)) &&
        row.history == if applied then old(row.history) + [via] else old(row.history)
    {
      goesOn := true;
      if status == Ready {
        status := via;
        var applied := row.UpdateIfStatus(via, Ready, stored);
        if applied.Err? {
          return false;
        }
      }
    }
  }

  // ---------- any number of handlers ----------

  // held is the handler's snapshot; owes is the audit entry it must still write for a transition it won.
  datatype Actor = Actor(held: OpState, owes: Option<OpState>)

  datatype System = System(db: OpState, history: seq<OpState>, actors: map<nat, Actor>, audits: seq<OpState>)

  datatype Move = Read | Swap(to: OpState, audited: bool) | FallBack(via: OpState) | StoreFails | Audit | ConfirmPaused

  // What one atomic action of actor a does.
  predicate Act(s: System, t: System, a: nat, m: Move) {
    match m
    case Read => (a in s.actors ==> s.actors[a].owes == None) && t == s.(actors := s.actors[a := Actor(s.db, None)])
    case Swap(to, audited) =>
      a in s.actors && s.actors[a].owes == None && TransitionValid(s.actors[a].held, to) &&
      (if s.db == s.actors[a].held then
        t == System(to, s.history + [to], s.actors[a := Actor(to, if audited then Some(to) else None)], s.audits)
      else t == s)
    case FallBack(via) =>
      a in s.actors && s.actors[a] == Actor(Ready, None) && (via == Scanning || via == Executing) &&
      (var actors := s.actors[a := Actor(via, None)];
        if s.db == Ready then t == System(via, s.history + [via], actors, s.audits)
        else t == s.(actors := actors))
    case StoreFails => a in s.actors && s.actors[a].owes == None && t == s
    case Audit =>
      a in s.actors && s.actors[a].owes.Some? &&
      t == s.(actors := s.actors[a := s.actors[a].(owes := None)], audits := s.audits + [s.actors[a].owes.value])
    case ConfirmPaused =>
      a in s.actors && s.actors[a] == Actor(Paused, None) && t == s.(audits := s.audits + [Paused])
  }

  ghost predicate Step(s: System, t: System) {
    exists a, m :: Act(s, t, a, m)
  }

  predicate Initial(s: System) {
    s == System(Created, [Created], map[], [])
  }

  ghost predicate Run(states: seq<System>) {
    states != [] && Initial(states[0]) && forall i :: 0 <= i < |states| - 1 ==> Step(states[i], states[i + 1])
  }

  // ---------- safety ----------

  predicate ValidPath(h: seq<OpState>) {
    forall i :: 0 <= i < |h| - 1 ==> TransitionValid(h[i], h[i + 1])
  }

  function TerminalCount(audits: seq<OpState>): nat {
    if audits == [] then 0
    else TerminalCount(audits[..|audits| - 1]) + (if IsTerminal(audits[|audits| - 1]) then 1 else 0)
  }

  predicate OwesTerminal(s: System, a: nat) {
    a in s.actors && s.actors[a].owes.Some? && IsTerminal(s.actors[a].owes.value)
  }

  // A terminal audit, written or owed, is the only one and names the stored status.
  ghost predicate Safe(s: System) {
    && s.history != [] && s.db == s.history[|s.history| - 1] && ValidPath(s.history)
    && (forall i :: 0 <= i < |s.audits| && IsTerminal(s.audits[i]) ==> s.audits[i] == s.db)
    && (forall a :: OwesTerminal(s, a) ==> s.actors[a].owes.value == s.db)
    && (forall a, b :: OwesTerminal(s, a) && OwesTerminal(s, b) ==> a == b)
    && TerminalCount(s.audits) <= 1
    && (TerminalCount(s.audits) == 1 ==> IsTerminal(s.db) && forall a :: !OwesTerminal(s, a))
  }

  lemma {:induction false} NoTerminalAudit(audits: seq<OpState>)
    ensures TerminalCount(audits) == 0 <==> forall i :: 0 <= i < |audits| ==> !IsTerminal(audits[i])
  {
    if audits != [] { NoTerminalAudit(audits[..|audits| - 1]); }
  }

  lemma PathExtends(h: seq<OpState>, to: OpState)
    requires h != [] && ValidPath(h) && TransitionValid(h[|h| - 1], to)
    ensures ValidPath(h + [to])
  {
  }

  // While the status is not terminal no terminal audit exists or is owed.
  lemma OpenMeansNoAudit(s: System)
    requires Safe(s) && !IsTerminal(s.db)
    ensures TerminalCount(s.audits) == 0 && forall a :: !OwesTerminal(s, a)
  {
    NoTerminalAudit(s.audits);
  }

  lemma SwapKeepsSafe(s: System, t: System, a: nat, to: OpState, audited: bool)
    requires Safe(s) && Act(s, t, a, Swap(to, audited))
    ensures Safe(t)
  {
    if s.db == s.actors[a].held {
      TerminalIffStuck(s.db);
      OpenMeansNoAudit(s);
      NoTerminalAudit(s.audits);
      PathExtends(s.history, to);
      assert forall b :: OwesTerminal(t, b) ==> b == a;
    }
  }

  lemma FallBackKeepsSafe(s: System, t: System, a: nat, via: OpState)
    requires Safe(s) && Act(s, t, a, FallBack(via))
    ensures Safe(t)
  {
    assert forall b :: OwesTerminal(t, b) <==> OwesTerminal(s, b);
    if s.db == Ready {
      OpenMeansNoAudit(s);
      NoTerminalAudit(s.audits);
      PathExtends(s.history, via);
    }
  }

  lemma AuditKeepsSafe(s: System, t: System, a: nat)
    requires Safe(s) && Act(s, t, a, Audit)
    ensures Safe(t)
  {
    assert t.audits[..|t.audits| - 1] == s.audits;
    assert forall b :: OwesTerminal(t, b) <==> OwesTerminal(s, b) && b != a;
    NoTerminalAudit(s.audits);
    if IsTerminal(s.actors[a].owes.value) { assert OwesTerminal(s, a); }
  }

  lemma ReadKeepsSafe(s: System, t: System, a: nat)
    requires Safe(s) && Act(s, t, a, Read)
    ensures Safe(t)
  {
    assert forall b :: OwesTerminal(t, b) <==> OwesTerminal(s, b);
  }

  lemma ConfirmKeepsSafe(s: System, t: System, a: nat)
    requires Safe(s) && Act(s, t, a, ConfirmPaused)
    ensures Safe(t)
  {
    assert t.audits[..|t.audits| - 1] == s.audits;
    assert forall b :: OwesTerminal(t, b) <==> OwesTerminal(s, b);
  }

  lemma MovesKeepSafe(s: System, t: System, a: nat, m: Move)
    requires Safe(s) && Act(s, t, a, m)
    ensures Safe(t)
  {
    match m
    case Swap(to, audited) => SwapKeepsSafe(s, t, a, to, audited);
    case FallBack(via) => FallBackKeepsSafe(s, t, a, via);
    case StoreFails =>
    case Audit => AuditKeepsSafe(s, t, a);
    case ConfirmPaused => ConfirmKeepsSafe(s, t, a);
    case Read => ReadKeepsSafe(s, t, a);
  }

  lemma {:induction false} RunIsSafe(states: seq<System>, k: nat)
    requires Run(states) && k < |states|
    ensures Safe(states[k])
  {
    if k > 0 {
      RunIsSafe(states, k - 1);
      var a, m :| Act(states[k - 1], states[k], a, m);
      MovesKeepSafe(states[k - 1], states[k], a, m);
    }
  }

  /** In every run of any number of handlers the stored statuses form a path of valid transitions, a terminal
      status is never left, and at most one terminal audit is written, naming the final status. */
  lemma RacesAreSafe(states: seq<System>, k: nat)
    requires Run(states) && k < |states|
    ensures ValidPath(states[k].history)
    ensures forall i :: 0 <= i < |states[k].history| && IsTerminal(states[k].history[i]) ==>
      i == |states[k].history| - 1 && states[k].history[i] == states[k].db
    ensures TerminalCount(states[k].audits) <= 1
    ensures forall i :: 0 <= i < |states[k].audits| && IsTerminal(states[k].audits[i]) ==> states[k].audits[i] == states[k].db
  {
    RunIsSafe(states, k);
    var h := states[k].history;
    forall i | 0 <= i < |h| && IsTerminal(h[i]) ensures i == |h| - 1 {
      assert i < |h| - 1 ==> TransitionValid(h[i], h[i + 1]);
      TerminalIffStuck(h[i]);
    }
  }

  // ---------- what an operation can go through ----------

  lemma {:induction false} HistoryStarts(states: seq<System>, k: nat)
    requires Run(states) && k < |states|
    ensures states[k].history != [] && states[k].history[0] == Created
  {
    if k > 0 {
      HistoryStarts(states, k - 1);
      var a, m :| Act(states[k - 1], states[k], a, m);
    }
  }

  lemma RunGrows(states: seq<System>, t: System)
    requires Run(states) && Step(states[|states| - 1], t)
    ensures Run(states + [t])
  {
  }

  // One handler alone: it reads the status and moves it on.
  lemma AloneMoves(states: seq<System>, to: OpState) returns (more: seq<System>)
    requires Run(states) && var s := states[|states| - 1];
      s.history != [] && (0 in s.actors ==> s.actors[0].owes == None) && TransitionValid(s.db, to)
    ensures Run(more) && var s, t := states[|states| - 1], more[|more| - 1];
      t.db == to && t.history == s.history + [to] && 0 in t.actors && t.actors[0].owes == None
  {
    var s := states[|states| - 1];
    var held := s.(actors := s.actors[0 := Actor(s.db, None)]);
    var t := System(to, s.history + [to], held.actors[0 := Actor(to, None)], s.audits);
    assert Act(s, held, 0, Read);
    RunGrows(states, held);
    assert Act(held, t, 0, Swap(to, false));
    RunGrows(states + [held], t);
    more := states + [held] + [t];
  }

  lemma {:induction false} PathHasRun(path: seq<OpState>) returns (states: seq<System>)
    requires path != [] && path[0] == Created && ValidPath(path)
    ensures Run(states) && var s := states[|states| - 1];
      s.history == path && s.db == path[|path| - 1] && (0 in s.actors ==> s.actors[0].owes == None)
  {
    if |path| == 1 {
      states := [System(Created, [Created], map[], [])];
      assert path == [Created];
    } else {
      var init, last := path[..|path| - 1], path[|path| - 1];
      assert TransitionValid(path[|path| - 2], path[|path| - 2 + 1]);
      var before := PathHasRun(init);
      states := AloneMoves(before, last);
      assert path == init + [last];
    }
  }

  ghost predicate Reachable(path: seq<OpState>) {
    exists states: seq<System>, k: nat :: Run(states) && k < |states| && states[k].history == path
  }

  /** The stored status can go through exactly the paths of valid transitions from created. */
  lemma ReachableIff(path: seq<OpState>)
    ensures Reachable(path) <==> path != [] && path[0] == Created && ValidPath(path)
  {
    if Reachable(path) {
      var states: seq<System>, k: nat :| Run(states) && k < |states| && states[k].history == path;
      HistoryStarts(states, k);
      RunIsSafe(states, k);
    }
    if path != [] && path[0] == Created && ValidPath(path) {
      var states := PathHasRun(path);
      assert states[|states| - 1].history == path;
    }
  }

  // An operation can have gone through path, and is at its last status.
  ghost predicate Lived(path: seq<OpState>, at: OpState) {
    path != [] && path[|path| - 1] == at && Reachable(path)
  }

  lemma Onward(path: seq<OpState>, at: OpState, to: OpState)
    requires Lived(path, at) && TransitionValid(at, to)
    ensures Lived(path + [to], to)
  {
    ReachableIff(path);
    PathExtends(path, to);
    ReachableIff(path + [to]);
  }

  const READY := [Created] + [Scanning] + [Ready]
  const EXECUTING := READY + [Executing]
  const PAUSED := EXECUTING + [Paused]

  lemma GetsReady()
    ensures Lived(READY, Ready)
  {
    ReachableIff([Created]);
    Onward([Created], Created, Scanning);
    Onward([Created] + [Scanning], Scanning, Ready);
  }

  /** An operation that is ready can be carried out, and blocked meanwhile. */
  lemma ReadyCanFinish()
    ensures Lived(EXECUTING, Executing) && Lived(EXECUTING + [Done], Done) && Lived(EXECUTING + [Blocked], Blocked)
  {
    GetsReady();
    Onward(READY, Ready, Executing);
    Onward(EXECUTING, Executing, Done);
    Onward(EXECUTING, Executing, Blocked);
  }

  /** Paused, it can be carried out after all, or cancelled. */
  lemma PausedCanFinish()
    ensures Lived(PAUSED + [Executing] + [Done], Done) && Lived(PAUSED + [Cancelled], Cancelled)
  {
    ReadyCanFinish();
    Onward(EXECUTING, Executing, Paused);
    Onward(PAUSED, Paused, Cancelled);
    Onward(PAUSED, Paused, Executing);
    Onward(PAUSED + [Executing], Executing, Done);
  }

  /** It can be scanned once more, for the selected transactions, and then carried out; or cancelled. */
  lemma ReadyCanRescan()
    ensures Lived(READY + [Scanning] + [Ready] + [Executing] + [Done], Done) && Lived(READY + [Cancelled], Cancelled)
  {
    GetsReady();
    Onward(READY, Ready, Cancelled);
    Onward(READY, Ready, Scanning);
    Onward(READY + [Scanning], Scanning, Ready);
    Onward(READY + [Scanning] + [Ready], Ready, Executing);
    Onward(READY + [Scanning] + [Ready] + [Executing], Executing, Done);
  }
}
