/**
 What exactly a stream leaves staged (internal/server/pitr/handler.go), read off the messages: for a shown
 transaction the first copy of each statement that arrived after its description, whole and in arrival order.
 */
module StagedOrder {
  import opened Base
  import opened Preview

  // The statements of tx that arrived after its description, in arrival order.
  function Arrivals(msgs: seq<Message>, tx: string): seq<Wire> {
    if msgs == [] then []
    else
      var init, last := msgs[..|msgs| - 1], msgs[|msgs| - 1];
      Arrivals(init, tx) + if last.Sql? && tx in Announced(init) then Filter(Under(tx), last.wires) else []
  }

  // The first wire of each order.
  function FirstCopies(wires: seq<Wire>): seq<Wire> {
    if wires == [] then []
    else
      var init, last := wires[..|wires| - 1], wires[|wires| - 1];
      if Holds(init, last.txOrder) then FirstCopies(init) else FirstCopies(init) + [last]
  }

  lemma {:induction false} CopiesHold(wires: seq<Wire>, order: int)
    ensures Holds(FirstCopies(wires), order) <==> Holds(wires, order)
  {
    if wires != [] {
      var init, last := wires[..|wires| - 1], wires[|wires| - 1];
      CopiesHold(init, order);
      HeldGrows(FirstCopies(init), last, order);
      HeldGrows(init, last, order);
      assert wires == init + [last];
    }
  }

  lemma CopiesMore(wires: seq<Wire>, w: Wire)
    ensures FirstCopies(wires + [w]) == if Holds(FirstCopies(wires), w.txOrder) then FirstCopies(wires) else FirstCopies(wires) + [w]
  {
    CopiesHold(wires, w.txOrder);
    var all := wires + [w];
    assert all[..|all| - 1] == wires && all[|all| - 1] == w;
  }

  lemma FilterOne(w: Wire, tx: string)
    ensures Filter(Under(tx), [w]) == if w.txId == tx then [w] else []
  {
    assert [w][1..] == [];
  }

  lemma WireAdds(v: Staging, w: Wire, tx: string, arrived: seq<Wire>)
    requires tx != "" && tx in v.known && SqlOf(v, tx) == FirstCopies(arrived)
    ensures SqlOf(StageWire(v, w), tx) == FirstCopies(arrived + Filter(Under(tx), [w]))
  {
    FilterOne(w, tx);
    if w.txId == tx {
      CopiesMore(arrived, w);
    } else {
      assert arrived + [] == arrived;
    }
  }

  // Staging the wires of one message adds to what tx has the first copies among its own.
  lemma {:induction false} WiresAdd(v: Staging, wires: seq<Wire>, tx: string, arrived: seq<Wire>)
    requires tx != "" && tx in v.known && SqlOf(v, tx) == FirstCopies(arrived)
    ensures SqlOf(StageWires(v, wires), tx) == FirstCopies(arrived + Filter(Under(tx), wires))
  {
    if wires == [] {
      assert arrived + [] == arrived;
    } else {
      var init, last := wires[..|wires| - 1], wires[|wires| - 1];
      WiresAdd(v, init, tx, arrived);
      WiresLeaveMetas(v, init);
      WireAdds(StageWires(v, init), last, tx, arrived + Filter(Under(tx), init));
      assert wires == init + [last];
      FilterAppend(Under(tx), init, [last]);
      Assoc(arrived, Filter(Under(tx), init), Filter(Under(tx), [last]));
    }
  }

  lemma {:induction false} OthersUntouched(v: Staging, wires: seq<Wire>, tx: string)
    requires tx == "" || tx !in v.known
    ensures SqlOf(StageWires(v, wires), tx) == SqlOf(v, tx)
  {
    if wires != [] {
      OthersUntouched(v, wires[..|wires| - 1], tx);
      WiresLeaveMetas(v, wires[..|wires| - 1]);
    }
  }

  lemma {:induction false} NoArrivalsUnannounced(msgs: seq<Message>, tx: string)
    requires tx !in Announced(msgs)
    ensures Arrivals(msgs, tx) == []
  {
    if msgs != [] {
      AnnouncedGrows(msgs, |msgs| - 1);
      NoArrivalsUnannounced(msgs[..|msgs| - 1], tx);
    }
  }

  lemma MetaAddsNothing(cap: nat, msgs: seq<Message>, m: Meta, tx: string)
    requires SqlOf(StageAll(NOTHING_STAGED, cap, msgs), tx) == if tx != "" && Shown(cap, msgs, tx) then FirstCopies(Arrivals(msgs, tx)) else []
    ensures var all := msgs + [TxMeta(m)];
      SqlOf(StageAll(NOTHING_STAGED, cap, all), tx) == if tx != "" && Shown(cap, all, tx) then FirstCopies(Arrivals(all, tx)) else []
  {
    var v, all := StageAll(NOTHING_STAGED, cap, msgs), msgs + [TxMeta(m)];
    LastOf(msgs, TxMeta(m));
    assert StageAll(NOTHING_STAGED, cap, all).sqlByTx == v.sqlByTx;
    assert Arrivals(all, tx) == Arrivals(msgs, tx) + [] == Arrivals(msgs, tx);
    FirstOfMore(Announced(msgs), m.txId, cap, tx);
    if tx !in Announced(msgs) { NoArrivalsUnannounced(msgs, tx); }
  }

  lemma SqlAdds(cap: nat, msgs: seq<Message>, wires: seq<Wire>, tx: string)
    requires var v := StageAll(NOTHING_STAGED, cap, msgs);
      (tx in v.known <==> Shown(cap, msgs, tx)) &&
      SqlOf(v, tx) == if tx != "" && Shown(cap, msgs, tx) then FirstCopies(Arrivals(msgs, tx)) else []
    ensures var all := msgs + [Sql(wires)];
      SqlOf(StageAll(NOTHING_STAGED, cap, all), tx) == if tx != "" && Shown(cap, all, tx) then FirstCopies(Arrivals(all, tx)) else []
  {
    var v, all := StageAll(NOTHING_STAGED, cap, msgs), msgs + [Sql(wires)];
    LastOf(msgs, Sql(wires));
    assert Announced(all) == Announced(msgs);
    if tx != "" && tx in v.known {
      WiresAdd(v, wires, tx, Arrivals(msgs, tx));
    } else {
      OthersUntouched(v, wires, tx);
    }
  }

  /** After any stream, a shown transaction has staged exactly the first copy of each of its statements that
      arrived after its description, in arrival order; any other has nothing. */
  lemma {:induction false} StagedExactly(cap: nat, msgs: seq<Message>, tx: string)
    ensures SqlOf(StageAll(NOTHING_STAGED, cap, msgs), tx)
      == if tx != "" && Shown(cap, msgs, tx) then FirstCopies(Arrivals(msgs, tx)) else []
  {
    if msgs != [] {
      var init, last := msgs[..|msgs| - 1], msgs[|msgs| - 1];
      StagedExactly(cap, init, tx);
      StreamStagesFirst(cap, init);
      assert msgs == init + [last];
      match last
      case Sql(wires) => SqlAdds(cap, init, wires, tx);
      case TxMeta(m) => MetaAddsNothing(cap, init, m, tx);
    }
  }

  // ---------- a plan sent once ----------

  // All statements of tx in the stream, in the order sent.
  function Sent(msgs: seq<Message>, tx: string): seq<Wire> {
    if msgs == [] then []
    else
      var init, last := msgs[..|msgs| - 1], msgs[|msgs| - 1];
      Sent(init, tx) + if last.Sql? then Filter(Under(tx), last.wires) else []
  }

  lemma {:induction false} DistinctCopies(wires: seq<Wire>)
    requires DistinctOrders(wires)
    ensures FirstCopies(wires) == wires
  {
    if wires != [] {
      DistinctCopies(wires[..|wires| - 1]);
    }
  }

  lemma {:induction false} FilterNone(p: Wire -> bool, wires: seq<Wire>)
    requires forall w :: w in wires ==> !p(w)
    ensures Filter(p, wires) == []
  {
    if wires != [] { FilterNone(p, wires[1..]); }
  }

  lemma MetaFirstBefore(msgs: seq<Message>)
    requires MetaFirst(msgs) && msgs != []
    ensures MetaFirst(msgs[..|msgs| - 1])
  {
    var init := msgs[..|msgs| - 1];
    forall i, w | 0 <= i < |init| && WireIn(w, init[i]) && w.txId != "" ensures w.txId in Announced(init[..i]) {
      assert init[i] == msgs[i] && init[..i] == msgs[..i];
    }
  }

  lemma {:induction false} AllArrive(msgs: seq<Message>, tx: string)
    requires MetaFirst(msgs) && tx != ""
    ensures Arrivals(msgs, tx) == Sent(msgs, tx)
  {
    if msgs != [] {
      var init, last := msgs[..|msgs| - 1], msgs[|msgs| - 1];
      MetaFirstBefore(msgs);
      AllArrive(init, tx);
      if last.Sql? && tx !in Announced(init) {
        forall w | w in last.wires ensures !Under(tx)(w) {
          assert WireIn(w, msgs[|msgs| - 1]);
        }
        FilterNone(Under(tx), last.wires);
      }
    }
  }

  /** A transaction whose description comes first and whose statements are sent once each, in any messages, is
      staged as sent, and a selection of it alone asks for exactly those statements in that order. */
  lemma SentPlanIsStaged(cap: nat, msgs: seq<Message>, tx: string)
    requires MetaFirst(msgs) && tx != "" && Shown(cap, msgs, tx) && DistinctOrders(Sent(msgs, tx))
    ensures SqlOf(StageAll(NOTHING_STAGED, cap, msgs), tx) == Sent(msgs, tx)
    ensures Chosen(StageAll(NOTHING_STAGED, cap, msgs), [tx]) == Sent(msgs, tx)
  {
    StagedExactly(cap, msgs, tx);
    AllArrive(msgs, tx);
    DistinctCopies(Sent(msgs, tx));
    var v := StageAll(NOTHING_STAGED, cap, msgs);
    ChosenFirst(v, [tx]);
    assert [tx][1..] == [];
    assert Chosen(v, []) == [];
  }

  /** A selection asks for the statements of its transactions in the order of their ids. */
  lemma ChosenInOrder(v: Staging, first: seq<string>, id: string, rest: seq<string>)
    ensures Chosen(v, first + [id] + rest) == Chosen(v, first) + SqlOf(v, id) + Chosen(v, rest)
  {
    var fs, s, rs := Map(Finder(v), first), [SqlOf(v, id)], Map(Finder(v), rest);
    assert Map(Finder(v), first + [id] + rest) == fs + s + rs;
    FlattenAppend(fs + s, rs);
    FlattenAppend(fs, s);
    assert s[1..] == [];
    assert Flatten(s) == SqlOf(v, id) + Flatten<Wire>([]) == SqlOf(v, id);
  }

  // ---------- descriptions ----------

  // The first description of each transaction, in order.
  function Descriptions(msgs: seq<Message>): seq<Meta> {
    if msgs == [] then []
    else
      var init, last := msgs[..|msgs| - 1], msgs[|msgs| - 1];
      Descriptions(init) + if last.TxMeta? && last.meta.txId !in Announced(init) then [last.meta] else []
  }

  lemma {:induction false} DescribedIds(msgs: seq<Message>)
    ensures IdsOf(Descriptions(msgs)) == Announced(msgs)
  {
    if msgs != [] {
      var init, last := msgs[..|msgs| - 1], msgs[|msgs| - 1];
      DescribedIds(init);
      if last.TxMeta? { assert IdsOf(Descriptions(init) + [last.meta]) == IdsOf(Descriptions(init)) + [last.meta.txId]; }
    }
  }

  /** The descriptions shown are the first one of each transaction, in order, up to the cap. */
  lemma {:induction false} DescriptionsExactly(cap: nat, msgs: seq<Message>)
    ensures StageAll(NOTHING_STAGED, cap, msgs).metas == FirstOf(Descriptions(msgs), cap)
  {
    if msgs != [] {
      var init, last := msgs[..|msgs| - 1], msgs[|msgs| - 1];
      var v := StageAll(NOTHING_STAGED, cap, init);
      DescriptionsExactly(cap, init);
      DescribedIds(init);
      StreamStagesFirst(cap, init);
      if last.Sql? { WiresLeaveMetas(v, last.wires); }
    }
  }
}
