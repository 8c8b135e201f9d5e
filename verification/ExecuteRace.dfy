/**
 The execute race (internal/server/pitr/handler.go): the agent has accepted an execute command, and its
 completion event, the command handler's late ready-to-executing swap, cancels and agent disconnects
 interleave freely. No pause takes part.
 */
module ExecuteRace {
  import opened Operation

  datatype Role = SendExecute | OpDone | Cancel | Disconnect

  // Where a handler is: not started, holding the status it read, owing an audit entry, or finished.
  datatype Phase = Fresh | Holding(held: OpState) | Owing(won: OpState) | Finished

  datatype Handler = Handler(role: Role, phase: Phase)

  datatype Race = Race(db: OpState, handlers: seq<Handler>, audits: seq<OpState>)

  function Target(r: Role): OpState {
    match r
    case SendExecute => Executing
    case OpDone => Done
    case Cancel => Cancelled
    case Disconnect => Blocked
  }

  // The handler's phase after reading the stored status. A disconnect only takes up in-flight operations,
  // a cancel only cancellable ones.
  function AfterRead(r: Role, db: OpState): Phase {
    match r
    case Disconnect => if db == Scanning || db == Executing then Holding(db) else Finished
    case Cancel => if TransitionValid(db, Cancelled) then Holding(db) else Finished
    case _ => Holding(db)
  }

  predicate Reads(s: Race, t: Race, i: nat)
    requires i < |s.handlers|
  {
    var h := s.handlers[i];
    h.phase == Fresh && t == s.(handlers := s.handlers[i := h.(phase := AfterRead(h.role, s.db))])
  }

  // The completion event meets a ready snapshot: it tries to record executing, and goes on as if it had.
  predicate FallsBack(s: Race, t: Race, i: nat)
    requires i < |s.handlers|
  {
    var h := s.handlers[i];
    h.role == OpDone && h.phase == Holding(Ready) &&
    t == s.(db := if s.db == Ready then Executing else s.db, handlers := s.handlers[i := h.(phase := Holding(Executing))])
  }

  predicate Swaps(s: Race, t: Race, i: nat)
    requires i < |s.handlers|
  {
    var h := s.handlers[i];
    h.phase.Holding? && !(h.role == OpDone && h.phase.held == Ready) &&
    var to := Target(h.role);
    if TransitionValid(h.phase.held, to) && s.db == h.phase.held then
      t == s.(db := to, handlers := s.handlers[i := h.(phase := if h.role == SendExecute then Finished else Owing(to))])
    else t == s.(handlers := s.handlers[i := h.(phase := Finished)])
  }

  /** Which status a handler that read the status takes up, and where its swap leads: sending execute goes from
      ready or paused to executing, completion from executing to done, a cancel from what can be cancelled, a
      disconnect from an operation in flight to blocked; any other swap, or one that lost, changes nothing. */
  lemma RolesExactly(s: Race, t: Race, i: nat)
    requires i < |s.handlers|
    ensures Reads(s, t, i) ==> var role := s.handlers[i].role;
      (t.handlers[i].phase == Finished <==>
        (role == Disconnect && s.db != Scanning && s.db != Executing) ||
        (role == Cancel && s.db != Scanning && s.db != Ready && s.db != Paused))
      && (t.handlers[i].phase != Finished ==> t.handlers[i].phase == Holding(s.db)) && t.db == s.db
    ensures Swaps(s, t, i) ==> var role, held := s.handlers[i].role, s.handlers[i].phase.held;
      var won := s.db == held && match role
        case SendExecute => held == Ready || held == Paused
        case OpDone => held == Executing
        case Cancel => held == Scanning || held == Ready || held == Paused
        case Disconnect => held == Created || held == Scanning || held == Executing;
      t.db == if !won then s.db else match role
        case SendExecute => Executing
        case OpDone => Done
        case Cancel => Cancelled
        case Disconnect => Blocked
  {
    if Swaps(s, t, i) { EnteredFrom(s.handlers[i].phase.held); }
    EnteredFrom(s.db);
  }

  predicate Audits(s: Race, t: Race, i: nat)
    requires i < |s.handlers|
  {
    var h := s.handlers[i];
    h.phase.Owing? && t == s.(handlers := s.handlers[i := h.(phase := Finished)], audits := s.audits + [h.phase.won])
  }

  predicate Step(s: Race, t: Race) {
    exists i :: 0 <= i < |s.handlers| && (Reads(s, t, i) || FallsBack(s, t, i) || Swaps(s, t, i) || Audits(s, t, i))
  }

  // Handler 0 sent the command while the operation was ready; handler 1 is the one completion event.
  predicate Initial(s: Race) {
    s.db == Ready && s.audits == [] && |s.handlers| >= 2
    && s.handlers[0] == Handler(SendExecute, Holding(Ready)) && s.handlers[1] == Handler(OpDone, Fresh)
    && forall i :: 2 <= i < |s.handlers| ==> (s.handlers[i].role == Cancel || s.handlers[i].role == Disconnect) && s.handlers[i].phase == Fresh
  }

  predicate Run(states: seq<Race>) {
    states != [] && Initial(states[0]) && forall i :: 0 <= i < |states| - 1 ==> Step(states[i], states[i + 1])
  }

  function CountDone(audits: seq<OpState>): nat {
    if audits == [] then 0 else CountDone(audits[..|audits| - 1]) + (if audits[|audits| - 1] == Done then 1 else 0)
  }

  // Done is stored exactly when the completion event won: it then owes the audit or has written it.
  predicate DoneAccounted(s: Race)
    requires |s.handlers| >= 2
  {
    match s.handlers[1].phase
    case Owing(w) => w == Done && s.db == Done && CountDone(s.audits) == 0
    case Finished => CountDone(s.audits) == (if s.db == Done then 1 else 0) && IsTerminal(s.db)
    case Holding(h) => s.db != Done && CountDone(s.audits) == 0 && (h != Ready ==> s.db != Ready && (s.db == h || IsTerminal(s.db)))
    case Fresh => s.db != Done && CountDone(s.audits) == 0
  }

  predicate Inv(s: Race) {
    && |s.handlers| >= 2
    && (s.db == Ready || s.db == Executing || IsTerminal(s.db))
    && s.handlers[0].role == SendExecute && s.handlers[1].role == OpDone
    && (forall i :: 2 <= i < |s.handlers| ==> s.handlers[i].role == Cancel || s.handlers[i].role == Disconnect)
    && (forall i :: 0 <= i < |s.handlers| && i != 1 && s.handlers[i].phase.Owing? ==> s.handlers[i].phase.won != Done)
    && (s.handlers[0].phase == Holding(Ready) || s.handlers[0].phase == Finished)
    && DoneAccounted(s)
  }

  lemma CountAppend(audits: seq<OpState>, x: OpState)
    ensures CountDone(audits + [x]) == CountDone(audits) + (if x == Done then 1 else 0)
  {
    assert (audits + [x])[..|audits|] == audits;
  }

  lemma ReadsKeepsInv(s: Race, t: Race, i: nat)
    requires Inv(s) && i < |s.handlers| && Reads(s, t, i)
    ensures Inv(t)
  {
  }

  lemma FallsBackKeepsInv(s: Race, t: Race, i: nat)
    requires Inv(s) && i < |s.handlers| && FallsBack(s, t, i)
    ensures Inv(t)
  {
  }

  lemma SwapsKeepsInv(s: Race, t: Race, i: nat)
    requires Inv(s) && i < |s.handlers| && Swaps(s, t, i)
    ensures Inv(t)
  {
  }

  lemma AuditsKeepsInv(s: Race, t: Race, i: nat)
    requires Inv(s) && i < |s.handlers| && Audits(s, t, i)
    ensures Inv(t)
  {
    CountAppend(s.audits, s.handlers[i].phase.won);
  }

  lemma StepKeepsInv(s: Race, t: Race)
    requires Inv(s) && Step(s, t)
    ensures Inv(t)
  {
    var i :| 0 <= i < |s.handlers| && (Reads(s, t, i) || FallsBack(s, t, i) || Swaps(s, t, i) || Audits(s, t, i));
    if Reads(s, t, i) { ReadsKeepsInv(s, t, i); }
    else if FallsBack(s, t, i) { FallsBackKeepsInv(s, t, i); }
    else if Swaps(s, t, i) { SwapsKeepsInv(s, t, i); }
    else { AuditsKeepsInv(s, t, i); }
  }

  lemma {:induction false} RunKeepsInv(states: seq<Race>, k: nat)
    requires Run(states) && k < |states|
    ensures Inv(states[k])
  {
    if k > 0 {
      RunKeepsInv(states, k - 1);
      StepKeepsInv(states[k - 1], states[k]);
    }
  }

  predicate AllFinished(s: Race) {
    forall i :: 0 <= i < |s.handlers| ==> s.handlers[i].phase == Finished
  }

  /** Once every handler has finished the operation is terminal, and exactly one done audit exists if done
      won, none otherwise. */
  lemma RaceEndsTerminal(states: seq<Race>, k: nat)
    requires Run(states) && k < |states| && AllFinished(states[k])
    ensures IsTerminal(states[k].db)
    ensures CountDone(states[k].audits) == if states[k].db == Done then 1 else 0
  {
    RunKeepsInv(states, k);
  }

  // How many more steps a handler can take.
  function Left(h: Handler): nat {
    match h.phase
    case Fresh => 4
    case Holding(held) => if h.role == OpDone && held == Ready then 3 else 2
    case Owing(_) => 1
    case Finished => 0
  }

  function TotalLeft(handlers: seq<Handler>): nat {
    if handlers == [] then 0 else TotalLeft(handlers[..|handlers| - 1]) + Left(handlers[|handlers| - 1])
  }

  lemma {:induction false} TotalAfter(handlers: seq<Handler>, i: nat, h: Handler)
    requires i < |handlers|
    ensures TotalLeft(handlers[i := h]) == TotalLeft(handlers) - Left(handlers[i]) + Left(h)
  {
    var n := |handlers| - 1;
    if i < n {
      assert handlers[i := h][..n] == handlers[..n][i := h];
      TotalAfter(handlers[..n], i, h);
    } else {
      assert handlers[i := h][..n] == handlers[..n];
    }
  }

  lemma ReadsShrinks(s: Race, t: Race, i: nat)
    requires i < |s.handlers| && Reads(s, t, i)
    ensures |t.handlers| == |s.handlers| && t.handlers == s.handlers[i := t.handlers[i]] && Left(t.handlers[i]) < Left(s.handlers[i])
  {
  }

  lemma FallsBackShrinks(s: Race, t: Race, i: nat)
    requires i < |s.handlers| && FallsBack(s, t, i)
    ensures |t.handlers| == |s.handlers| && t.handlers == s.handlers[i := t.handlers[i]] && Left(t.handlers[i]) < Left(s.handlers[i])
  {
  }

  lemma SwapsShrinks(s: Race, t: Race, i: nat)
    requires i < |s.handlers| && Swaps(s, t, i)
    ensures |t.handlers| == |s.handlers| && t.handlers == s.handlers[i := t.handlers[i]] && Left(t.handlers[i]) < Left(s.handlers[i])
  {
  }

  lemma AuditsShrinks(s: Race, t: Race, i: nat)
    requires i < |s.handlers| && Audits(s, t, i)
    ensures |t.handlers| == |s.handlers| && t.handlers == s.handlers[i := t.handlers[i]] && Left(t.handlers[i]) < Left(s.handlers[i])
  {
  }

  /** Every step brings the race closer to its end. */
  lemma StepShrinks(s: Race, t: Race)
    requires Step(s, t)
    ensures TotalLeft(t.handlers) < TotalLeft(s.handlers)
  {
    var i :| 0 <= i < |s.handlers| && (Reads(s, t, i) || FallsBack(s, t, i) || Swaps(s, t, i) || Audits(s, t, i));
    if Reads(s, t, i) { ReadsShrinks(s, t, i); }
    else if FallsBack(s, t, i) { FallsBackShrinks(s, t, i); }
    else if Swaps(s, t, i) { SwapsShrinks(s, t, i); }
    else { AuditsShrinks(s, t, i); }
    TotalAfter(s.handlers, i, t.handlers[i]);
  }

  /** No run is longer than the steps its handlers have to take. */
  lemma {:induction false} RunsEnd(states: seq<Race>, k: nat)
    requires Run(states) && k < |states|
    ensures k + TotalLeft(states[k].handlers) <= TotalLeft(states[0].handlers)
  {
    if k > 0 {
      RunsEnd(states, k - 1);
      StepShrinks(states[k - 1], states[k]);
    }
  }

  /** A handler that has not finished can always move, so every race can be brought to its end. */
  lemma RaceNeverStuck(s: Race, i: nat)
    requires i < |s.handlers| && s.handlers[i].phase != Finished
    ensures exists t :: Step(s, t)
  {
    var h := s.handlers[i];
    var t := match h.phase
      case Fresh => s.(handlers := s.handlers[i := h.(phase := AfterRead(h.role, s.db))])
      case Owing(w) => s.(handlers := s.handlers[i := h.(phase := Finished)], audits := s.audits + [w])
      case Holding(held) =>
        if h.role == OpDone && held == Ready then
          s.(db := if s.db == Ready then Executing else s.db, handlers := s.handlers[i := h.(phase := Holding(Executing))])
        else if TransitionValid(held, Target(h.role)) && s.db == held then
          s.(db := Target(h.role), handlers := s.handlers[i := h.(phase := if h.role == SendExecute then Finished else Owing(Target(h.role)))])
        else s.(handlers := s.handlers[i := h.(phase := Finished)])
      case Finished => s;
    assert Reads(s, t, i) || FallsBack(s, t, i) || Swaps(s, t, i) || Audits(s, t, i);
    assert Step(s, t);
  }
}
