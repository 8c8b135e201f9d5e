/**
 The server's scan preview (internal/server/pitr/handler.go, store.go): staging what the agent streams,
 building the statements of a selection, and storing them.
 */
module Preview {
  import opened Base

  // An undo statement as the agent sends it, and what is kept of a transaction's description.
  datatype Wire = Wire(txId: string, txOrder: int, sql: string, warnings: seq<string>)
  datatype Meta = Meta(txId: string, details: string)

  datatype Message = TxMeta(meta: Meta) | Sql(wires: seq<Wire>)

  datatype Staging = Staging(metas: seq<Meta>, known: set<string>, sqlByTx: map<string, seq<Wire>>, truncated: bool)

  const NOTHING_STAGED := Staging([], {}, map[], false)

  function SqlOf(v: Staging, tx: string): seq<Wire> {
    if tx in v.sqlByTx then v.sqlByTx[tx] else []
  }

  predicate Holds(wires: seq<Wire>, order: int) {
    exists i :: 0 <= i < |wires| && wires[i].txOrder == order
  }

  function StageMeta(v: Staging, cap: nat, m: Meta): Staging {
    if m.txId in v.known then v
    else if |v.metas| >= cap then v.(truncated := true)
    else v.(metas := v.metas + [m], known := v.known + {m.txId})
  }

  function StageWire(v: Staging, w: Wire): Staging {
    if w.txId == "" || w.txId !in v.known || Holds(SqlOf(v, w.txId), w.txOrder) then v
    else v.(sqlByTx := v.sqlByTx[w.txId := SqlOf(v, w.txId) + [w]])
  }

  function StageWires(v: Staging, wires: seq<Wire>): Staging {
    if wires == [] then v else StageWire(StageWires(v, wires[..|wires| - 1]), wires[|wires| - 1])
  }

  function Stage(v: Staging, cap: nat, msg: Message): Staging {
    match msg
    case TxMeta(m) => StageMeta(v, cap, m)
    case Sql(wires) => StageWires(v, wires)
  }

  function StageAll(v: Staging, cap: nat, msgs: seq<Message>): Staging {
    if msgs == [] then v else Stage(StageAll(v, cap, msgs[..|msgs| - 1]), cap, msgs[|msgs| - 1])
  }

  // The preview of one operation.
  class OpPreview {
    const maxEntries: nat
    var metas: seq<Meta>
    var known: set<string>
    var sqlByTx: map<string, seq<Wire>>
    var truncated: bool

    constructor (maxEntries: nat)
      ensures this.maxEntries == maxEntries && View() == NOTHING_STAGED
    {
      this.maxEntries := maxEntries;
      metas, known, sqlByTx, truncated := [], {}, map[], false;
    }

    function View(): Staging
      reads this
    {
      Staging(metas, known, sqlByTx, truncated)
    }

    method StageTxMeta(meta: Meta)
      modifies this
      ensures View() == StageMeta(old(View()), maxEntries, meta)
    {
      if meta.txId in known {
        return;
      }
      if |metas| >= maxEntries {
        truncated := true;
        return;
      }
      metas := metas + [meta];
      known := known + {meta.txId};
    }

    method StageSQL(wires: seq<Wire>)
      modifies this
      ensures View() == StageWires(old(View()), wires)
    {
      for i := 0 to |wires|
        invariant View() == StageWires(old(View()), wires[..i])
      {
        var w := wires[i];
        assert wires[..i + 1][..i] == wires[..i];
        if w.txId == "" || w.txId !in known {
          continue;
        }
        var staged := if w.txId in sqlByTx then sqlByTx[w.txId] else [];
        var dup := false;
        for j := 0 to |staged|
          invariant !dup ==> !Holds(staged[..j], w.txOrder)
        {
          if staged[j].txOrder == w.txOrder {
            dup := true;
            break;
          }
        }
        assert staged[..|staged|] == staged;
        if dup {
          continue;
        }
        sqlByTx := sqlByTx[w.txId := staged + [w]];
      }
      assert wires[..|wires|] == wires;
    }
  }

  // ---------- what a stream leaves staged ----------

  function IdsOf(metas: seq<Meta>): seq<string> {
    Map((m: Meta) => m.txId, metas)
  }

  // The transaction ids announced by a stream, in order of first announcement.
  function Announced(msgs: seq<Message>): seq<string> {
    if msgs == [] then []
    else
      var ids, last := Announced(msgs[..|msgs| - 1]), msgs[|msgs| - 1];
      if last.Sql? || last.meta.txId in ids then ids else ids + [last.meta.txId]
  }

  function FirstOf<A>(xs: seq<A>, n: nat): seq<A> {
    if |xs| <= n then xs else xs[..n]
  }

  predicate DistinctOrders(wires: seq<Wire>) {
    forall i, j :: 0 <= i < j < |wires| ==> wires[i].txOrder != wires[j].txOrder
  }

  // Ids distinct and equal to known, no more than the cap; SQL only for known transactions, each statement
  // under its own transaction and no order twice.
  ghost predicate Sound(v: Staging, cap: nat) {
    && Distinct(IdsOf(v.metas)) && (forall id :: id in v.known <==> id in IdsOf(v.metas))
    && |v.metas| <= cap && (v.truncated ==> |v.metas| == cap)
    && (forall tx :: tx in v.sqlByTx ==> tx in v.known && tx != "" && v.sqlByTx[tx] != [] && DistinctOrders(v.sqlByTx[tx]))
    && (forall tx, i :: tx in v.sqlByTx && 0 <= i < |v.sqlByTx[tx]| ==> v.sqlByTx[tx][i].txId == tx)
  }

  lemma {:induction false} WiresLeaveMetas(v: Staging, wires: seq<Wire>)
    ensures var r := StageWires(v, wires); r.metas == v.metas && r.known == v.known && r.truncated == v.truncated
  {
    if wires != [] { WiresLeaveMetas(v, wires[..|wires| - 1]); }
  }

  lemma {:induction false} WiresKeepSound(v: Staging, cap: nat, wires: seq<Wire>)
    requires Sound(v, cap)
    ensures Sound(StageWires(v, wires), cap)
  {
    if wires != [] {
      WiresKeepSound(v, cap, wires[..|wires| - 1]);
      OneWireKeepsSound(StageWires(v, wires[..|wires| - 1]), cap, wires[|wires| - 1]);
    }
  }

  lemma OneWireKeepsSound(v: Staging, cap: nat, w: Wire)
    requires Sound(v, cap)
    ensures Sound(StageWire(v, w), cap)
  {
  }

  lemma MetaKeepsSound(v: Staging, cap: nat, m: Meta)
    requires Sound(v, cap)
    ensures Sound(StageMeta(v, cap, m), cap)
    ensures IdsOf(v.metas + [m]) == IdsOf(v.metas) + [m.txId]
  {
    assert IdsOf(v.metas + [m]) == IdsOf(v.metas) + [m.txId];
  }

  /** Under any stream, in any order and with any repetition, the staging stays sound; the transactions it
      shows are the first ones announced, up to the cap, and it is marked truncated exactly when there were
      more. */
  lemma {:induction false} StreamStagesFirst(cap: nat, msgs: seq<Message>)
    ensures var v := StageAll(NOTHING_STAGED, cap, msgs);
      Sound(v, cap) && IdsOf(v.metas) == FirstOf(Announced(msgs), cap) && (v.truncated <==> |Announced(msgs)| > cap)
  {
    if msgs != [] {
      var init, last := msgs[..|msgs| - 1], msgs[|msgs| - 1];
      StreamStagesFirst(cap, init);
      var v := StageAll(NOTHING_STAGED, cap, init);
      match last
      case TxMeta(m) => MetaKeepsSound(v, cap, m);
      case Sql(wires) => WiresKeepSound(v, cap, wires); WiresLeaveMetas(v, wires);
    }
  }

  // ---------- duplicate delivery ----------

  predicate WireIn(w: Wire, msg: Message) {
    msg.Sql? && w in msg.wires
  }

  // Every delivered statement of a shown transaction is staged.
  ghost predicate NothingLost(v: Staging, msgs: seq<Message>) {
    forall msg, w :: msg in msgs && WireIn(w, msg) && w.txId != "" && w.txId in v.known ==> Holds(SqlOf(v, w.txId), w.txOrder)
  }

  lemma {:induction false} WiresAbsorbed(v: Staging, wires: seq<Wire>)
    requires forall w :: w in wires && w.txId != "" && w.txId in v.known ==> Holds(SqlOf(v, w.txId), w.txOrder)
    ensures StageWires(v, wires) == v
  {
    if wires != [] { WiresAbsorbed(v, wires[..|wires| - 1]); }
  }

  // The message carries a copy of the transaction's statement of that order.
  predicate CopyIn(msg: Message, tx: string, order: int) {
    msg.Sql? && exists i :: 0 <= i < |msg.wires| && msg.wires[i].txId == tx && msg.wires[i].txOrder == order
  }

  lemma CopyAppend(wires: seq<Wire>, w: Wire, tx: string, order: int)
    ensures CopyIn(Sql(wires + [w]), tx, order) <==> CopyIn(Sql(wires), tx, order) || (w.txId == tx && w.txOrder == order)
  {
    var all := wires + [w];
    if CopyIn(Sql(wires), tx, order) {
      var i :| 0 <= i < |wires| && wires[i].txId == tx && wires[i].txOrder == order;
      assert all[i] == wires[i];
    }
    assert all[|wires|] == w;
  }

  lemma {:induction false} WiresHeld(v: Staging, wires: seq<Wire>, tx: string, order: int)
    ensures Holds(SqlOf(StageWires(v, wires), tx), order)
      <==> Holds(SqlOf(v, tx), order) || (tx != "" && tx in v.known && CopyIn(Sql(wires), tx, order))
  {
    if wires != [] {
      var init, last := wires[..|wires| - 1], wires[|wires| - 1];
      WiresHeld(v, init, tx, order);
      WiresLeaveMetas(v, init);
      HeldGrows(SqlOf(StageWires(v, init), tx), last, order);
      assert wires == init + [last];
      CopyAppend(init, last, tx, order);
    }
  }

  lemma HeldGrows(wires: seq<Wire>, w: Wire, order: int)
    ensures Holds(wires + [w], order) <==> Holds(wires, order) || w.txOrder == order
  {
    if Holds(wires, order) {
      var i :| 0 <= i < |wires| && wires[i].txOrder == order;
      assert (wires + [w])[i].txOrder == order;
    }
    assert (wires + [w])[|wires|] == w;
  }

  lemma {:induction false} MetaAbsorbed(cap: nat, msgs: seq<Message>, m: Meta)
    requires TxMeta(m) in msgs
    ensures var v := StageAll(NOTHING_STAGED, cap, msgs); StageMeta(v, cap, m) == v
  {
    var init, last := msgs[..|msgs| - 1], msgs[|msgs| - 1];
    StreamStagesFirst(cap, init);
    if last.Sql? { WiresLeaveMetas(StageAll(NOTHING_STAGED, cap, init), last.wires); }
    if last != TxMeta(m) {
      assert TxMeta(m) in init;
      MetaAbsorbed(cap, init, m);
    }
  }

  lemma {:induction false} AgainAbsorbed(cap: nat, msgs: seq<Message>, again: seq<Message>)
    requires NothingLost(StageAll(NOTHING_STAGED, cap, msgs), msgs)
    requires forall msg :: msg in again ==> msg in msgs
    ensures StageAll(NOTHING_STAGED, cap, msgs + again) == StageAll(NOTHING_STAGED, cap, msgs)
  {
    if again == [] {
      assert msgs + again == msgs;
    } else {
      var init, last := again[..|again| - 1], again[|again| - 1];
      AgainAbsorbed(cap, msgs, init);
      assert (msgs + again)[..|msgs + again| - 1] == msgs + init;
      assert last in again;
      var v := StageAll(NOTHING_STAGED, cap, msgs);
      match last
      case TxMeta(m) => MetaAbsorbed(cap, msgs, m);
      case Sql(wires) =>
        assert forall w :: w in wires ==> WireIn(w, last);
        WiresAbsorbed(v, wires);
    }
  }

  predicate Shown(cap: nat, msgs: seq<Message>, tx: string) {
    tx in FirstOf(Announced(msgs), cap)
  }

  // Some copy of the statement arrived after its transaction's description.
  predicate InTime(msgs: seq<Message>, tx: string, order: int) {
    exists j :: 0 <= j < |msgs| && CopyIn(msgs[j], tx, order) && tx in Announced(msgs[..j])
  }

  // Every statement of a shown transaction arrived in time at least once.
  ghost predicate CaughtUp(cap: nat, msgs: seq<Message>) {
    forall i, w :: 0 <= i < |msgs| && WireIn(w, msgs[i]) && w.txId != "" && Shown(cap, msgs, w.txId) ==>
      InTime(msgs, w.txId, w.txOrder)
  }

  lemma InTimeKept(msgs: seq<Message>, last: Message, tx: string, order: int)
    requires InTime(msgs, tx, order)
    ensures InTime(msgs + [last], tx, order)
  {
    var all := msgs + [last];
    var j :| 0 <= j < |msgs| && CopyIn(msgs[j], tx, order) && tx in Announced(msgs[..j]);
    assert all[j] == msgs[j] && all[..j] == msgs[..j];
  }

  lemma InTimeLast(msgs: seq<Message>, last: Message, tx: string, order: int)
    requires CopyIn(last, tx, order) && tx in Announced(msgs)
    ensures InTime(msgs + [last], tx, order)
  {
    var all := msgs + [last];
    assert all[..|msgs|] == msgs && all[|msgs|] == last;
  }

  lemma InTimeBefore(msgs: seq<Message>, last: Message, tx: string, order: int)
    requires InTime(msgs + [last], tx, order)
    ensures InTime(msgs, tx, order) || (CopyIn(last, tx, order) && tx in Announced(msgs))
  {
    var all := msgs + [last];
    var j :| 0 <= j < |all| && CopyIn(all[j], tx, order) && tx in Announced(all[..j]);
    if j < |msgs| {
      assert all[j] == msgs[j] && all[..j] == msgs[..j];
    } else {
      assert all[..j] == msgs;
    }
  }

  lemma InTimeMore(msgs: seq<Message>, last: Message, tx: string, order: int)
    ensures InTime(msgs + [last], tx, order) <==> InTime(msgs, tx, order) || (CopyIn(last, tx, order) && tx in Announced(msgs))
  {
    if InTime(msgs, tx, order) {
      InTimeKept(msgs, last, tx, order);
    } else if InTime(msgs + [last], tx, order) {
      InTimeBefore(msgs, last, tx, order);
    } else if CopyIn(last, tx, order) && tx in Announced(msgs) {
      InTimeLast(msgs, last, tx, order);
    }
  }

  lemma {:induction false} InTimeAnnounced(msgs: seq<Message>, tx: string, order: int)
    requires InTime(msgs, tx, order)
    ensures tx in Announced(msgs)
  {
    var j :| 0 <= j < |msgs| && CopyIn(msgs[j], tx, order) && tx in Announced(msgs[..j]);
    AnnouncedGrows(msgs, j);
  }

  lemma StagedAfterSql(cap: nat, msgs: seq<Message>, wires: seq<Wire>, tx: string, order: int)
    requires var v := StageAll(NOTHING_STAGED, cap, msgs);
      (tx in v.known <==> Shown(cap, msgs, tx)) &&
      (Holds(SqlOf(v, tx), order) <==> tx != "" && Shown(cap, msgs, tx) && InTime(msgs, tx, order))
    ensures var all := msgs + [Sql(wires)];
      Holds(SqlOf(StageAll(NOTHING_STAGED, cap, all), tx), order) <==> tx != "" && Shown(cap, all, tx) && InTime(all, tx, order)
  {
    var all := msgs + [Sql(wires)];
    LastOf(msgs, Sql(wires));
    InTimeMore(msgs, Sql(wires), tx, order);
    WiresHeld(StageAll(NOTHING_STAGED, cap, msgs), wires, tx, order);
    assert Announced(all) == Announced(msgs);
  }

  lemma StagedAfterMeta(cap: nat, msgs: seq<Message>, m: Meta, tx: string, order: int)
    requires Holds(SqlOf(StageAll(NOTHING_STAGED, cap, msgs), tx), order) <==> tx != "" && Shown(cap, msgs, tx) && InTime(msgs, tx, order)
    ensures var all := msgs + [TxMeta(m)];
      Holds(SqlOf(StageAll(NOTHING_STAGED, cap, all), tx), order) <==> tx != "" && Shown(cap, all, tx) && InTime(all, tx, order)
  {
    var v, all := StageAll(NOTHING_STAGED, cap, msgs), msgs + [TxMeta(m)];
    LastOf(msgs, TxMeta(m));
    InTimeMore(msgs, TxMeta(m), tx, order);
    assert StageAll(NOTHING_STAGED, cap, all).sqlByTx == v.sqlByTx;
    FirstOfMore(Announced(msgs), m.txId, cap, tx);
    if InTime(msgs, tx, order) { InTimeAnnounced(msgs, tx, order); }
  }

  lemma FirstOfMore(ids: seq<string>, id: string, n: nat, tx: string)
    ensures tx in ids && id !in ids ==> (tx in FirstOf(ids + [id], n) <==> tx in FirstOf(ids, n))
    ensures tx in FirstOf(ids, n) ==> tx in FirstOf(ids + [id], n)
  {
    var all := ids + [id];
    assert forall i :: 0 <= i < |ids| ==> all[i] == ids[i];
    if tx in FirstOf(ids, n) {
      var i :| 0 <= i < |FirstOf(ids, n)| && FirstOf(ids, n)[i] == tx;
      assert FirstOf(all, n)[i] == tx;
    }
    if tx in ids && id !in ids && tx in FirstOf(all, n) {
      var i :| 0 <= i < |FirstOf(all, n)| && FirstOf(all, n)[i] == tx;
      assert FirstOf(ids, n)[i] == tx;
    }
  }

  lemma LastOf(msgs: seq<Message>, last: Message)
    ensures var all := msgs + [last]; all != [] && all[..|all| - 1] == msgs && all[|all| - 1] == last
  {
  }

  /** A statement is staged exactly when its transaction is shown and some copy of it arrived after the
      transaction's description. */
  lemma {:induction false} StagedIff(cap: nat, msgs: seq<Message>, tx: string, order: int)
    ensures Holds(SqlOf(StageAll(NOTHING_STAGED, cap, msgs), tx), order)
      <==> tx != "" && Shown(cap, msgs, tx) && InTime(msgs, tx, order)
  {
    if msgs != [] {
      var init, last := msgs[..|msgs| - 1], msgs[|msgs| - 1];
      StagedIff(cap, init, tx, order);
      StreamStagesFirst(cap, init);
      assert msgs == init + [last];
      match last
      case Sql(wires) => StagedAfterSql(cap, init, wires, tx, order);
      case TxMeta(m) => StagedAfterMeta(cap, init, m, tx, order);
    }
  }

  lemma LostIffLate(cap: nat, msgs: seq<Message>)
    ensures NothingLost(StageAll(NOTHING_STAGED, cap, msgs), msgs) <==> CaughtUp(cap, msgs)
  {
    var v := StageAll(NOTHING_STAGED, cap, msgs);
    StreamStagesFirst(cap, msgs);
    if CaughtUp(cap, msgs) {
      forall msg, w | msg in msgs && WireIn(w, msg) && w.txId != "" && w.txId in v.known ensures Holds(SqlOf(v, w.txId), w.txOrder) {
        var i :| 0 <= i < |msgs| && msgs[i] == msg;
        StagedIff(cap, msgs, w.txId, w.txOrder);
      }
    }
    if NothingLost(v, msgs) {
      forall i, w | 0 <= i < |msgs| && WireIn(w, msgs[i]) && w.txId != "" && Shown(cap, msgs, w.txId) ensures InTime(msgs, w.txId, w.txOrder) {
        assert msgs[i] in msgs;
        StagedIff(cap, msgs, w.txId, w.txOrder);
      }
    }
  }

  /** Delivering any messages of a stream again changes nothing exactly when every statement of a shown
      transaction arrived, at least once, after that transaction's description. */
  lemma RedeliveryIff(cap: nat, msgs: seq<Message>)
    ensures (forall again: seq<Message> :: (forall msg :: msg in again ==> msg in msgs) ==>
        StageAll(NOTHING_STAGED, cap, msgs + again) == StageAll(NOTHING_STAGED, cap, msgs))
      <==> CaughtUp(cap, msgs)
  {
    var v := StageAll(NOTHING_STAGED, cap, msgs);
    LostIffLate(cap, msgs);
    if NothingLost(v, msgs) {
      forall again: seq<Message> | forall msg :: msg in again ==> msg in msgs
        ensures StageAll(NOTHING_STAGED, cap, msgs + again) == v
      {
        AgainAbsorbed(cap, msgs, again);
      }
    } else {
      var msg, w :| msg in msgs && WireIn(w, msg) && w.txId != "" && w.txId in v.known && !Holds(SqlOf(v, w.txId), w.txOrder);
      assert (msgs + [msg])[..|msgs + [msg]| - 1] == msgs;
      WiresHeld(v, msg.wires, w.txId, w.txOrder);
      var i :| 0 <= i < |msg.wires| && msg.wires[i] == w;
      assert CopyIn(Sql(msg.wires), w.txId, w.txOrder);
      assert StageAll(NOTHING_STAGED, cap, msgs + [msg]) != v;
      assert forall m :: m in [msg] ==> m in msgs;
    }
  }

  // Each transaction's description arrives before its statements, as the agent sends them.
  ghost predicate MetaFirst(msgs: seq<Message>) {
    forall i, w :: 0 <= i < |msgs| && WireIn(w, msgs[i]) && w.txId != "" ==> w.txId in Announced(msgs[..i])
  }

  /** Then every statement of a shown transaction is staged, and redelivery changes nothing. */
  lemma MetaFirstLosesNothing(cap: nat, msgs: seq<Message>)
    requires MetaFirst(msgs)
    ensures CaughtUp(cap, msgs) && NothingLost(StageAll(NOTHING_STAGED, cap, msgs), msgs)
  {
    forall i, w | 0 <= i < |msgs| && WireIn(w, msgs[i]) && w.txId != "" ensures InTime(msgs, w.txId, w.txOrder) {
      var k :| 0 <= k < |msgs[i].wires| && msgs[i].wires[k] == w;
      assert CopyIn(msgs[i], w.txId, w.txOrder);
    }
    LostIffLate(cap, msgs);
  }

  lemma {:induction false} AnnouncedGrows(msgs: seq<Message>, i: nat)
    requires i <= |msgs|
    ensures Announced(msgs[..i]) <= Announced(msgs)
    decreases |msgs|
  {
    if i == |msgs| {
      assert msgs[..i] == msgs;
    } else {
      AnnouncedGrows(msgs[..|msgs| - 1], i);
      assert msgs[..|msgs| - 1][..i] == msgs[..i];
    }
  }

  /** A statement that overtakes its transaction's description is dropped, and comes in only if sent again. */
  lemma OvertakenIsLost(cap: nat, m: Meta, w: Wire)
    requires cap > 0 && w.txId == m.txId != ""
    ensures SqlOf(StageAll(NOTHING_STAGED, cap, [Sql([w]), TxMeta(m)]), m.txId) == []
    ensures SqlOf(StageAll(NOTHING_STAGED, cap, [Sql([w]), TxMeta(m), Sql([w])]), m.txId) == [w]
  {
    var early, late := [Sql([w]), TxMeta(m)], [Sql([w]), TxMeta(m), Sql([w])];
    assert late[..|late| - 1] == early && early[..|early| - 1] == [Sql([w])];
    assert StageWires(NOTHING_STAGED, [w]) == NOTHING_STAGED;
    assert StageAll(NOTHING_STAGED, cap, [Sql([w])]) == NOTHING_STAGED;
    var v := StageMeta(NOTHING_STAGED, cap, m);
    assert StageAll(NOTHING_STAGED, cap, early) == v;
    assert StageWires(v, [w]) == StageWire(v, w);
  }

  // ---------- the statements of a selection ----------

  datatype Stmt = Stmt(txIndex: nat, stmtIndex: nat, wire: Wire)

  datatype SelectError = NothingSelected | Unknown(ids: seq<string>) | NoSql(id: string)

  function Finder(v: Staging): string -> seq<Wire> {
    (id: string) => SqlOf(v, id)
  }

  function Under(tx: string): Wire -> bool {
    (w: Wire) => w.txId == tx
  }

  // The staged statements of the selected transactions, in the order asked for.
  function Chosen(v: Staging, ids: seq<string>): seq<Wire> {
    Flatten(Map(Finder(v), ids))
  }

  // The statements carry these wires, numbered from 0, each pointing at its transaction's description.
  predicate Numbered(v: Staging, stmts: seq<Stmt>, wires: seq<Wire>) {
    |stmts| == |wires| && forall i :: 0 <= i < |stmts| ==>
      stmts[i].stmtIndex == i && stmts[i].wire == wires[i]
      && stmts[i].txIndex < |v.metas| && v.metas[stmts[i].txIndex].txId == wires[i].txId
  }

  function UnknownOf(v: Staging, ids: seq<string>): seq<string> {
    Filter((id: string) => id !in IdsOf(v.metas), ids)
  }

  lemma FilterLastOne<A>(p: A -> bool, xs: seq<A>, i: nat)
    requires i < |xs|
    ensures Filter(p, xs[..i + 1]) == Filter(p, xs[..i]) + (if p(xs[i]) then [xs[i]] else [])
  {
    assert xs[..i + 1] == xs[..i] + [xs[i]];
    FilterAppend(p, xs[..i], [xs[i]]);
  }

  lemma ChosenMore(v: Staging, ids: seq<string>, i: nat)
    requires i < |ids|
    ensures Chosen(v, ids[..i + 1]) == Chosen(v, ids[..i]) + SqlOf(v, ids[i])
  {
    assert Map(Finder(v), ids[..i + 1]) == Map(Finder(v), ids[..i]) + [SqlOf(v, ids[i])];
    FlattenAppend(Map(Finder(v), ids[..i]), [SqlOf(v, ids[i])]);
    assert Flatten([SqlOf(v, ids[i])]) == SqlOf(v, ids[i]);
  }

  lemma {:induction false} NoneUnknown(v: Staging, ids: seq<string>, i: nat)
    requires UnknownOf(v, ids) == [] && i < |ids|
    ensures ids[i] in IdsOf(v.metas)
  {
    if i > 0 { NoneUnknown(v, ids[1..], i - 1); }
  }

  method UnknownIds(v: Staging, ids: seq<string>) returns (unknown: seq<string>)
    ensures unknown == UnknownOf(v, ids)
  {
    var p := (id: string) => id !in IdsOf(v.metas);
    unknown := [];
    for i := 0 to |ids|
      invariant unknown == Filter(p, ids[..i])
    {
      FilterLastOne(p, ids, i);
      if ids[i] !in IdsOf(v.metas) {
        unknown := unknown + [ids[i]];
      }
    }
    assert ids[..|ids|] == ids;
  }

  // Numbers the statements of one transaction after those before it.
  method AppendStatements(v: Staging, before: seq<Stmt>, ghost earlier: seq<Wire>, wires: seq<Wire>, txIndex: nat)
    returns (stmts: seq<Stmt>)
    requires Numbered(v, before, earlier) && txIndex < |v.metas|
    requires forall i :: 0 <= i < |wires| ==> wires[i].txId == v.metas[txIndex].txId
    ensures Numbered(v, stmts, earlier + wires)
  {
    stmts := before;
    for j := 0 to |wires|
      invariant Numbered(v, stmts, earlier + wires[..j])
    {
      stmts := stmts + [Stmt(txIndex, |stmts|, wires[j])];
    }
    assert wires[..|wires|] == wires;
  }

  // ids[i] is the first of ids nothing is staged for.
  predicate FirstWithoutSql(v: Staging, ids: seq<string>, i: nat) {
    i < |ids| && SqlOf(v, ids[i]) == [] && AllWithSql(v, ids[..i])
  }

  predicate AllWithSql(v: Staging, ids: seq<string>) {
    forall i :: 0 <= i < |ids| ==> SqlOf(v, ids[i]) != []
  }

  method Select(v: Staging, ids: seq<string>, cap: nat) returns (r: Result<seq<Stmt>, SelectError>)
    requires Sound(v, cap)
    ensures ids == [] ==> r == Err(NothingSelected)
    ensures ids != [] && UnknownOf(v, ids) != [] ==> r == Err(Unknown(UnknownOf(v, ids)))
    ensures ids != [] && UnknownOf(v, ids) == [] ==>
      match r
      case Ok(stmts) => Numbered(v, stmts, Chosen(v, ids)) && AllWithSql(v, ids)
      case Err(NoSql(id)) => exists i: nat :: FirstWithoutSql(v, ids, i) && ids[i] == id
      case Err(_) => false
  {
    if |ids| == 0 {
      return Err(NothingSelected);
    }
    var unknown := UnknownIds(v, ids);
    if |unknown| > 0 {
      return Err(Unknown(unknown));
    }
    var stmts: seq<Stmt> := [];
    for i := 0 to |ids|
      invariant Numbered(v, stmts, Chosen(v, ids[..i]))
      invariant AllWithSql(v, ids[..i])
    {
      var wires := SqlOf(v, ids[i]);
      if |wires| == 0 {
        assert FirstWithoutSql(v, ids, i);
        return Err(NoSql(ids[i]));
      }
      NoneUnknown(v, ids, i);
      var txIndex := IndexOf(IdsOf(v.metas), ids[i]).value;
      stmts := AppendStatements(v, stmts, Chosen(v, ids[..i]), wires, txIndex);
      ChosenMore(v, ids, i);
      assert ids[..i + 1] == ids[..i] + [ids[i]];
    }
    assert ids[..|ids|] == ids;
    return Ok(stmts);
  }

  function Occurrences(ids: seq<string>, tx: string): nat {
    if ids == [] then 0 else (if ids[0] == tx then 1 else 0) + Occurrences(ids[1..], tx)
  }

  function Times<A>(xs: seq<A>, n: nat): seq<A> {
    if n == 0 then [] else xs + Times(xs, n - 1)
  }

  lemma {:induction false} OwnWires(wires: seq<Wire>, owner: string, tx: string)
    requires forall i :: 0 <= i < |wires| ==> wires[i].txId == owner
    ensures Filter(Under(tx), wires) == if owner == tx then wires else []
  {
    if wires != [] { OwnWires(wires[1..], owner, tx); }
  }

  lemma ChosenFirst(v: Staging, ids: seq<string>)
    requires ids != []
    ensures Chosen(v, ids) == SqlOf(v, ids[0]) + Chosen(v, ids[1..])
  {
    assert Map(Finder(v), ids)[1..] == Map(Finder(v), ids[1..]);
  }

  // Statements are staged under their own transaction.
  predicate OwnOnly(v: Staging) {
    forall tx, i :: tx in v.sqlByTx && 0 <= i < |v.sqlByTx[tx]| ==> v.sqlByTx[tx][i].txId == tx
  }

  // Among the asked-for transactions' statements only tx's own are tx's.
  predicate Separated(v: Staging, ids: seq<string>, tx: string) {
    ids == [] ||
    (Filter(Under(tx), SqlOf(v, ids[0])) == (if ids[0] == tx then SqlOf(v, tx) else []) && Separated(v, ids[1..], tx))
  }

  lemma {:induction false} OwnSeparated(v: Staging, ids: seq<string>, tx: string)
    requires OwnOnly(v)
    ensures Separated(v, ids, tx)
  {
    if ids != [] {
      OwnWires(SqlOf(v, ids[0]), ids[0], tx);
      OwnSeparated(v, ids[1..], tx);
    }
  }

  lemma TimesNext(own: seq<Wire>, n: nat)
    ensures Times(own, n + 1) == own + Times(own, n) && [] + Times(own, n) == Times(own, n)
  {
  }

  lemma {:induction false} OwnHoldsEach(v: Staging, ids: seq<string>, tx: string)
    requires Separated(v, ids, tx)
    ensures Filter(Under(tx), Chosen(v, ids)) == Times(SqlOf(v, tx), Occurrences(ids, tx))
  {
    if ids != [] {
      OwnHoldsEach(v, ids[1..], tx);
      ChosenFirst(v, ids);
      FilterAppend(Under(tx), SqlOf(v, ids[0]), Chosen(v, ids[1..]));
      TimesNext(SqlOf(v, tx), Occurrences(ids[1..], tx));
    }
  }

  /** A selection's plan holds a transaction's staged statements, whole and in order, as many times as its id
      was asked for: exactly once for distinct ids, never for one not asked for. */
  lemma ChosenHoldsEach(v: Staging, cap: nat, ids: seq<string>, tx: string)
    requires Sound(v, cap)
    ensures Filter(Under(tx), Chosen(v, ids)) == Times(SqlOf(v, tx), Occurrences(ids, tx))
  {
    OwnSeparated(v, ids, tx);
    OwnHoldsEach(v, ids, tx);
  }

  lemma {:induction false} OccursOnce(ids: seq<string>, tx: string)
    ensures Distinct(ids) ==> Occurrences(ids, tx) == if tx in ids then 1 else 0
  {
    if ids != [] {
      assert Distinct(ids) ==> Distinct(ids[1..]) && ids[0] !in ids[1..];
      OccursOnce(ids[1..], tx);
    }
  }

  lemma SelectedExactlyOnce(v: Staging, cap: nat, ids: seq<string>, tx: string)
    requires Sound(v, cap) && Distinct(ids)
    ensures Filter(Under(tx), Chosen(v, ids)) == if tx in ids then SqlOf(v, tx) else []
  {
    ChosenHoldsEach(v, cap, ids, tx);
    OccursOnce(ids, tx);
    assert Times(SqlOf(v, tx), 1) == SqlOf(v, tx) + Times(SqlOf(v, tx), 0);
  }

  // ---------- the statement table ----------

  // The rows of one operation, by statement index.
  type Table = map<nat, Stmt>

  predicate DistinctIndices(stmts: seq<Stmt>) {
    forall i, j :: 0 <= i < j < |stmts| ==> stmts[i].stmtIndex != stmts[j].stmtIndex
  }

  function Rows(stmts: seq<Stmt>): Table {
    if stmts == [] then map[] else Rows(stmts[..|stmts| - 1])[stmts[|stmts| - 1].stmtIndex := stmts[|stmts| - 1]]
  }

  lemma {:induction false} RowKeys(stmts: seq<Stmt>)
    ensures forall k :: k in Rows(stmts) <==> exists i :: 0 <= i < |stmts| && stmts[i].stmtIndex == k
  {
    if stmts != [] { RowKeys(stmts[..|stmts| - 1]); }
  }

  class StatementStore {
    var rows: Table

    constructor ()
      ensures rows == map[]
    {
      rows := map[];
    }

    // Replaces the operation's rows in one transaction; a repeated index, like any failed write, undoes all of it.
    // failsAt is the row whose write fails, if one does; commits says whether the transaction commits.
    method SaveStatements(stmts: seq<Stmt>, failsAt: Option<nat>, commits: bool) returns (ok: bool)
      modifies this
      ensures ok <==> DistinctIndices(stmts) && commits && (failsAt.Some? ==> failsAt.value >= |stmts|)
      ensures rows == if ok then Rows(stmts) else old(rows)
    {
      var table: Table := map[];
      for i := 0 to |stmts|
        invariant rows == old(rows) && table == Rows(stmts[..i]) && DistinctIndices(stmts[..i])
        invariant failsAt.Some? ==> failsAt.value >= i
      {
        RowKeys(stmts[..i]);
        if failsAt == Some(i) || stmts[i].stmtIndex in table {
          return false;
        }
        assert stmts[..i + 1][..i] == stmts[..i];
        table := table[stmts[i].stmtIndex := stmts[i]];
      }
      assert stmts[..|stmts|] == stmts;
      ok := commits;
      if ok {
        rows := table;
      }
    }
  }

  // The rows, each once, ordered by index.
  ghost predicate OrderedBy(rows: Table, stmts: seq<Stmt>) {
    (forall i, j :: 0 <= i < j < |stmts| ==> stmts[i].stmtIndex < stmts[j].stmtIndex)
    && (forall i :: 0 <= i < |stmts| ==> stmts[i].stmtIndex in rows && rows[stmts[i].stmtIndex] == stmts[i])
    && (forall k :: k in rows ==> exists i :: 0 <= i < |stmts| && stmts[i].stmtIndex == k)
  }

  lemma {:induction false} NumberedRows(v: Staging, stmts: seq<Stmt>, wires: seq<Wire>, i: nat)
    requires Numbered(v, stmts, wires) && i < |stmts|
    ensures i in Rows(stmts) && Rows(stmts)[i] == stmts[i]
    decreases |stmts|
  {
    var init := stmts[..|stmts| - 1];
    if i < |init| { NumberedRows(v, init, wires[..|init|], i); }
  }

  predicate Increasing(ks: seq<nat>) {
    forall i, j :: 0 <= i < j < |ks| ==> ks[i] < ks[j]
  }

  lemma {:induction false} AtLeastPosition(ks: seq<nat>, i: nat)
    requires Increasing(ks) && i < |ks|
    ensures i <= ks[i]
  {
    if i > 0 { AtLeastPosition(ks, i - 1); }
  }

  // Increasing indices that are exactly those below n are their own positions.
  lemma {:induction false} FullIsIdentity(ks: seq<nat>, n: nat, i: nat)
    requires Increasing(ks) && (forall k :: 0 <= k < n <==> k in ks) && i < |ks|
    ensures ks[i] == i < n
  {
    AtLeastPosition(ks, i);
    assert ks[i] in ks;
    assert i in ks;
    var k :| 0 <= k < |ks| && ks[k] == i;
    AtLeastPosition(ks, k);
    if k < i { FullIsIdentity(ks, n, k); }
  }

  lemma FullLength(ks: seq<nat>, n: nat)
    requires Increasing(ks) && forall k :: 0 <= k < n <==> k in ks
    ensures |ks| == n
  {
    if ks != [] { FullIsIdentity(ks, n, |ks| - 1); }
    if |ks| < n {
      assert |ks| in ks;
      var k :| 0 <= k < |ks| && ks[k] == |ks|;
      FullIsIdentity(ks, n, k);
    }
  }

  lemma NumberedInOrder(v: Staging, stmts: seq<Stmt>, wires: seq<Wire>)
    requires Numbered(v, stmts, wires)
    ensures DistinctIndices(stmts) && OrderedBy(Rows(stmts), stmts)
  {
    RowKeys(stmts);
    forall i | 0 <= i < |stmts| ensures i in Rows(stmts) && Rows(stmts)[i] == stmts[i] {
      NumberedRows(v, stmts, wires, i);
    }
  }

  /** A selection's statements, once saved, load back in index order as exactly the plan that was built. */
  lemma SavedPlanLoadsBack(v: Staging, stmts: seq<Stmt>, wires: seq<Wire>, loaded: seq<Stmt>)
    requires Numbered(v, stmts, wires)
    ensures DistinctIndices(stmts)
    ensures OrderedBy(Rows(stmts), loaded) <==> loaded == stmts
  {
    NumberedInOrder(v, stmts, wires);
    if OrderedBy(Rows(stmts), loaded) {
      var ks := Map((st: Stmt) => st.stmtIndex, loaded);
      RowKeys(stmts);
      forall k ensures 0 <= k < |stmts| <==> k in ks {
        if 0 <= k < |stmts| { assert stmts[k].stmtIndex == k; }
      }
      FullLength(ks, |stmts|);
      forall i | 0 <= i < |loaded| ensures loaded[i] == stmts[i] {
        FullIsIdentity(ks, |stmts|, i);
        assert Rows(stmts)[stmts[i].stmtIndex] == stmts[i];
      }
    }
  }
}
