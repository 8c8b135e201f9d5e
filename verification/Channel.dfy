/**
 The hand-over between the parse goroutine and Next/Close (internal/binlog/engine.go): a bounded channel of
 transactions, a one-slot error channel closed before it, and a done signal. Every interleaving is a run of
 the step relation below.
 */
module Channel {
  import opened Base

  const CAPACITY := 16

  // What a call of Next returned.
  datatype Answer<T> = Tx(tx: T) | Failure(err: string) | Eof

  datatype Pc = Sending | Blocked | Failing | ClosingErrs | ClosingTxs | Finished

  // What the parser produces: its transactions in order, then possibly an error.
  datatype Script<T> = Script(txs: seq<T>, err: Option<string>)

  datatype State<T> = State(
    pc: Pc, remaining: seq<T>, buf: seq<T>, errs: seq<string>,
    errsClosed: bool, txsClosed: bool, done: bool, answers: seq<Answer<T>>)

  function Initial<T>(script: Script<T>): State<T> {
    State(Sending, script.txs, [], [], false, false, false, [])
  }

  // ---------- steps ----------

  predicate Producer<T(==)>(script: Script<T>, s: State<T>, t: State<T>) {
    match s.pc
    case Sending =>
      if s.remaining == [] then
        t == s.(pc := if script.err.Some? then Failing else ClosingErrs)
      else if |s.buf| < CAPACITY then
        t == s.(buf := s.buf + [s.remaining[0]], remaining := s.remaining[1..])
      else t == s.(pc := Blocked)
    case Blocked =>
      s.remaining != [] &&
      ((|s.buf| < CAPACITY && t == s.(pc := Sending, buf := s.buf + [s.remaining[0]], remaining := s.remaining[1..])) ||
       (s.done && t == s.(pc := Sending, remaining := s.remaining[1..])))
    case Failing => script.err.Some? && s.errs == [] && t == s.(pc := ClosingErrs, errs := [script.err.value])
    case ClosingErrs => t == s.(pc := ClosingTxs, errsClosed := true)
    case ClosingTxs => t == s.(pc := Finished, txsClosed := true)
    case Finished => false
  }

  // One completed call of Next.
  predicate Consumer<T(==)>(s: State<T>, t: State<T>) {
    if s.buf != [] then t == s.(buf := s.buf[1..], answers := s.answers + [Tx(s.buf[0])])
    else if s.errs != [] then s.txsClosed && t == s.(errs := s.errs[1..], answers := s.answers + [Failure(s.errs[0])])
    else s.txsClosed && s.errsClosed && t == s.(answers := s.answers + [Eof])
  }

  predicate Closes<T(==)>(s: State<T>, t: State<T>) {
    t == s.(done := true)
  }

  predicate Step<T(==)>(script: Script<T>, s: State<T>, t: State<T>) {
    Producer(script, s, t) || Consumer(s, t) || Closes(s, t)
  }

  predicate Run<T(==)>(script: Script<T>, states: seq<State<T>>) {
    states != [] && states[0] == Initial(script) &&
    forall i :: 0 <= i < |states| - 1 ==> Step(script, states[i], states[i + 1])
  }

  // ---------- what Next owes its caller ----------

  function Answers<T>(txs: seq<T>): (r: seq<Answer<T>>)
    ensures |r| == |txs|
  {
    seq(|txs|, i requires 0 <= i < |txs| => Tx(txs[i]))
  }

  function Eofs<T>(n: nat): seq<Answer<T>> {
    seq(n, _ => Eof)
  }

  function Errors<T>(err: Option<string>): seq<Answer<T>> {
    match err case None => [] case Some(e) => [Failure(e)]
  }

  // The whole answer stream: every transaction in order, then the error if any, then end of file for ever.
  predicate Faithful<T(==)>(script: Script<T>, answers: seq<Answer<T>>) {
    answers <= Answers(script.txs) + Errors(script.err) + Eofs(|answers|)
  }

  // The order in which the producer shuts down, and what the error slot holds meanwhile.
  ghost predicate Orderly<T>(script: Script<T>, s: State<T>) {
    && |s.buf| <= CAPACITY
    && (s.pc.Blocked? ==> s.remaining != [])
    && (!s.pc.Sending? && !s.pc.Blocked? ==> s.remaining == [])
    && (s.pc.Failing? ==> script.err.Some?)
    && (s.errsClosed <==> s.pc.ClosingTxs? || s.pc.Finished?)
    && (s.txsClosed <==> s.pc.Finished?)
    && (s.pc.Sending? || s.pc.Blocked? || s.pc.Failing? ==> s.errs == [])
    && (s.errs != [] ==> script.err.Some? && s.errs == [script.err.value])
    && (s.pc.ClosingErrs? || s.pc.ClosingTxs? || (s.pc.Finished? && s.buf != []) ==> |s.errs| == |Errors<T>(script.err)|)
  }

  // The answers after the transactions.
  function Ending<T>(script: Script<T>, s: State<T>, ends: nat): seq<Answer<T>> {
    if s.pc.Finished? && s.buf == [] && s.errs == [] then Errors(script.err) + Eofs(ends) else []
  }

  // Without Close, answers, buffer and remainder together are the script.
  ghost predicate Accounted<T>(script: Script<T>, s: State<T>, taken: nat, ends: nat) {
    && taken <= |script.txs|
    && script.txs[taken..] == s.buf + s.remaining
    && s.answers == Answers(script.txs[..taken]) + Ending(script, s, ends)
  }

  ghost predicate Kept<T>(script: Script<T>, s: State<T>) {
    Orderly(script, s) && (!s.done ==> exists taken: nat, ends: nat :: Accounted(script, s, taken, ends))
  }

  lemma InitiallyKept<T>(script: Script<T>)
    ensures Kept(script, Initial(script))
  {
    assert Accounted(script, Initial(script), 0, 0);
  }

  lemma ProducerKeepsOrder<T>(script: Script<T>, s: State<T>, t: State<T>)
    requires Orderly(script, s) && Producer(script, s, t)
    ensures Orderly(script, t)
  {
  }

  lemma ProducerKeepsAccount<T>(script: Script<T>, s: State<T>, t: State<T>, taken: nat, ends: nat)
    requires Orderly(script, s) && Producer(script, s, t) && !s.done && Accounted(script, s, taken, ends)
    ensures Accounted(script, t, taken, 0)
  {
    assert t.buf + t.remaining == s.buf + s.remaining;
    assert Ending(script, s, ends) == [];
    if t.pc.Finished? && t.buf == [] && t.errs == [] {
      assert Errors<T>(script.err) == [] && Eofs<T>(0) == [];
    }
  }

  lemma ConsumerKeepsAccount<T>(script: Script<T>, s: State<T>, t: State<T>, taken: nat, ends: nat)
    requires Orderly(script, s) && Consumer(s, t) && Accounted(script, s, taken, ends)
    ensures exists taken': nat, ends': nat :: Accounted(script, t, taken', ends')
  {
    if s.buf != [] {
      assert script.txs[taken] == s.buf[0];
      assert script.txs[taken + 1..] == t.buf + t.remaining;
      assert Answers(script.txs[..taken + 1]) == Answers(script.txs[..taken]) + [Tx(s.buf[0])];
      if t.pc.Finished? && t.buf == [] && t.errs == [] {
        assert Errors<T>(script.err) == [] && Eofs<T>(0) == [];
      }
      assert Accounted(script, t, taken + 1, 0);
    } else if s.errs != [] {
      assert Eofs<T>(0) == [];
      assert Accounted(script, t, taken, 0);
    } else {
      assert Eofs<T>(ends + 1) == Eofs<T>(ends) + [Eof];
      assert Accounted(script, t, taken, ends + 1);
    }
  }

  lemma StepKeeps<T>(script: Script<T>, s: State<T>, t: State<T>)
    requires Kept(script, s) && Step(script, s, t)
    ensures Kept(script, t)
  {
    if Closes(s, t) {
    } else if Producer(script, s, t) {
      ProducerKeepsOrder(script, s, t);
      if !t.done {
        var taken: nat, ends: nat :| Accounted(script, s, taken, ends);
        ProducerKeepsAccount(script, s, t, taken, ends);
      }
    } else if !t.done {
      var taken: nat, ends: nat :| Accounted(script, s, taken, ends);
      ConsumerKeepsAccount(script, s, t, taken, ends);
    }
  }

  lemma {:induction false} RunKeeps<T>(script: Script<T>, states: seq<State<T>>, k: nat)
    requires Run(script, states) && k < |states|
    ensures Kept(script, states[k])
  {
    if k == 0 {
      InitiallyKept(script);
    } else {
      RunKeeps(script, states, k - 1);
      StepKeeps(script, states[k - 1], states[k]);
    }
  }

  /** In every interleaving without Close, Next has returned a prefix of: the transactions in order, then the
      parse error if there was one, then end of file for ever. */
  lemma NextIsFaithful<T>(script: Script<T>, states: seq<State<T>>, k: nat)
    requires Run(script, states) && k < |states| && !states[k].done
    ensures Faithful(script, states[k].answers) && |states[k].buf| <= 16
  {
    RunKeeps(script, states, k);
    var s := states[k];
    var taken: nat, ends: nat :| Accounted(script, s, taken, ends);
    var ideal := Answers(script.txs) + Errors(script.err) + Eofs(|s.answers|);
    assert Answers(script.txs[..taken]) == Answers(script.txs)[..taken];
    if Ending(script, s, ends) != [] {
      assert taken == |script.txs| by { assert |script.txs[taken..]| == 0; }
      assert script.txs[..taken] == script.txs;
      assert s.answers == Answers(script.txs) + Errors(script.err) + Eofs(ends);
    }
  }

  // ---------- nobody gets stuck ----------

  /** Without Close: a caller of Next is never left waiting while the producer cannot move either. */
  lemma NextNeverDeadlocks<T>(script: Script<T>, states: seq<State<T>>, k: nat)
    requires Run(script, states) && k < |states|
    ensures exists t :: Producer(script, states[k], t) || Consumer(states[k], t)
  {
    RunKeeps(script, states, k);
    var s := states[k];
    if s.buf != [] {
      assert Consumer(s, s.(buf := s.buf[1..], answers := s.answers + [Tx(s.buf[0])]));
    } else if s.pc.Finished? {
      if s.errs != [] {
        assert Consumer(s, s.(errs := s.errs[1..], answers := s.answers + [Failure(s.errs[0])]));
      } else {
        assert Consumer(s, s.(answers := s.answers + [Eof]));
      }
    } else {
      var t := ProducerMoves(script, s);
    }
  }

  lemma ProducerMoves<T>(script: Script<T>, s: State<T>) returns (t: State<T>)
    requires Orderly(script, s) && !s.pc.Finished? && (s.pc.Blocked? ==> s.done || |s.buf| < CAPACITY)
    ensures Producer(script, s, t)
  {
    match s.pc
    case Sending =>
      t := if s.remaining == [] then s.(pc := if script.err.Some? then Failing else ClosingErrs)
        else if |s.buf| < CAPACITY then s.(buf := s.buf + [s.remaining[0]], remaining := s.remaining[1..])
        else s.(pc := Blocked);
    case Blocked =>
      t := if |s.buf| < CAPACITY then s.(pc := Sending, buf := s.buf + [s.remaining[0]], remaining := s.remaining[1..])
        else s.(pc := Sending, remaining := s.remaining[1..]);
    case Failing => t := s.(pc := ClosingErrs, errs := [script.err.value]);
    case ClosingErrs => t := s.(pc := ClosingTxs, errsClosed := true);
    case ClosingTxs => t := s.(pc := Finished, txsClosed := true);
  }

  function Work<T>(s: State<T>): nat {
    2 * |s.remaining| + match s.pc
      case Sending => 5
      case Blocked => 4
      case Failing => 3
      case ClosingErrs => 2
      case ClosingTxs => 1
      case Finished => 0
  }

  /** After Close the producer can always take a step until it has finished, whether or not anyone still
      receives, and every step brings it closer. */
  lemma CloseReleasesProducer<T>(script: Script<T>, states: seq<State<T>>, k: nat)
    requires Run(script, states) && k < |states| && states[k].done
    ensures states[k].pc.Finished? || exists t :: Producer(script, states[k], t)
    ensures forall t :: Producer(script, states[k], t) ==> Work(t) < Work(states[k]) && t.done
  {
    RunKeeps(script, states, k);
    if !states[k].pc.Finished? {
      var t := ProducerMoves(script, states[k]);
    }
  }
}
