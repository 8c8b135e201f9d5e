/** What the scan engine's fold guarantees over whole event streams (internal/binlog/engine.go). */
module ScanProperties {
  import opened Base
  import opened Values
  import opened SqlLexis
  import opened Engine

  // ---------- the changes a row event stands for ----------

  // Read by position: one change for each image, and for updates one for each pair of a before- and an
  // after-image; an image without a partner is none.
  function Converted(ref: TableRef, kind: RowsKind, images: seq<Image>): seq<RowChange> {
    match kind
    case WriteRows => seq(|images|, i requires 0 <= i < |images| => RowChange(ref.0, ref.1, Insert, [], images[i], []))
    case UpdateRows =>
      seq(|images| / 2, i requires 0 <= i < |images| / 2 => RowChange(ref.0, ref.1, Update, images[2 * i], images[2 * i + 1], []))
    case DeleteRows => seq(|images|, i requires 0 <= i < |images| => RowChange(ref.0, ref.1, Delete, images[i], [], []))
    case OtherRows => []
  }

  lemma {:induction false} UpdatePairsAt(ref: TableRef, images: seq<Image>)
    ensures |UpdatePairs(ref, images)| == |images| / 2
    ensures forall i :: 0 <= i < |images| / 2 ==>
      UpdatePairs(ref, images)[i] == RowChange(ref.0, ref.1, Update, images[2 * i], images[2 * i + 1], [])
    decreases |images|
  {
    if |images| >= 2 {
      var rest := images[2..];
      UpdatePairsAt(ref, rest);
      forall i | 0 <= i < |images| / 2
        ensures UpdatePairs(ref, images)[i] == RowChange(ref.0, ref.1, Update, images[2 * i], images[2 * i + 1], [])
      {
        if i > 0 {
          assert UpdatePairs(ref, images)[i] == UpdatePairs(ref, rest)[i - 1];
          assert rest[2 * (i - 1)] == images[2 * i] && rest[2 * (i - 1) + 1] == images[2 * i + 1];
        }
      }
    }
  }

  /** A row event of a mapped table becomes exactly its inserts, deletes or update pairs, with the table's
      names and the images where they belong; one of an unmapped table or another kind is skipped. */
  lemma RowEventExact(maps: map<nat, TableRef>, id: nat, kind: RowsKind, images: seq<Image>)
    ensures RowChangesOf(maps, id, kind, images)
      == if id in maps && kind != OtherRows then Some(Converted(maps[id], kind, images)) else None
  {
    if id in maps && kind != OtherRows {
      UpdatePairsAt(maps[id], images);
      assert RowChangesOf(maps, id, kind, images).value == Converted(maps[id], kind, images);
    }
  }

  // ---------- nothing lost: rows are conserved whatever the event grammar ----------

  predicate Unfiltered(cfg: Config, f: ScanFilter) {
    f.timeRange == None && f.gtidMatch == None && f.tables == [] && f.selected == [] &&
    (if f.maxRowsPerTx == 0 then cfg.maxRowsPerTx else f.maxRowsPerTx) <= 0
  }

  // The row changes of all convertible row events, in order.
  function Convertible(maps: map<nat, TableRef>, events: seq<Event>): seq<RowChange>
    decreases |events|
  {
    if events == [] then [] else
    match events[0].body
    case TableMap(id, ref) => Convertible(maps[id := ref], events[1..])
    case RowsEvent(id, kind, images) =>
      (if id in maps then Converted(maps[id], kind, images) else []) + Convertible(maps, events[1..])
    case _ => Convertible(maps, events[1..])
  }

  function AllRows(st: State): seq<RowChange> {
    Flatten(Map(Rows, st.out)) + Opened(st.pending).rows
  }

  lemma EmittedRows(cfg: Config, f: ScanFilter, p: Pending, now: int)
    requires Unfiltered(cfg, f)
    ensures Flatten(Map(Rows, Emit(cfg, f, p, now))) == p.rows
  {
    if p.rows != [] {
      var emitted := Emit(cfg, f, p, now);
      assert |emitted| == 1 && emitted[0].statements == p.rows;
      assert Map(Rows, emitted)[1..] == [];
    }
  }

  lemma RowsAppend(xs: seq<Transaction>, ys: seq<Transaction>)
    ensures Flatten(Map(Rows, xs + ys)) == Flatten(Map(Rows, xs)) + Flatten(Map(Rows, ys))
  {
    FlattenAppend(Map(Rows, xs), Map(Rows, ys));
    assert Map(Rows, xs + ys) == Map(Rows, xs) + Map(Rows, ys);
  }

  lemma FinishKeepsRows(cfg: Config, f: ScanFilter, st: State, now: int, xid: Option<nat>, at: Option<int>)
    requires Unfiltered(cfg, f)
    ensures AllRows(Finish(cfg, f, st, now, xid, at)) == AllRows(st)
  {
    if st.pending.Some? {
      var p := Committed(st.pending.value, xid, at);
      EmittedRows(cfg, f, p, now);
      RowsAppend(st.out, Emit(cfg, f, p, now));
    }
  }

  /** Without filter or truncation, the rows of the emitted transactions followed by the pending rows are
      the rows of all convertible row events, in order. */
  lemma {:induction false} RowsConserved(cfg: Config, f: ScanFilter, st: State, events: seq<Event>)
    requires Unfiltered(cfg, f)
    ensures AllRows(HandleAll(cfg, f, st, events)) == AllRows(st) + Convertible(st.maps, events)
    decreases |events|
  {
    if events != [] {
      var ev := events[0];
      var st' := Handle(cfg, f, st, ev);
      RowsConserved(cfg, f, st', events[1..]);
      match ev.body {
        case Query(_, text) =>
          if text == "COMMIT" {
            FinishKeepsRows(cfg, f, st, ev.head.now, None, Some(EventTime(ev.head)));
          } else if text != "BEGIN" {
            FinishKeepsRows(cfg, f, st, ev.head.now, None, None);
          }
        case Xid(xid) => FinishKeepsRows(cfg, f, st, ev.head.now, Some(xid), Some(EventTime(ev.head)));
        case RowsEvent(id, kind, images) => RowEventExact(st.maps, id, kind, images);
        case _ =>
      }
    }
  }

  // ---------- aggregation inverts serialisation ----------

  // One row event's changes, all of one table and action. stray is an update's before-image without its partner.
  datatype Group = Group(tableId: nat, action: Action, changes: seq<RowChange>, stray: Option<Image>)

  // One statement: its table maps, then its row changes.
  datatype Block = Block(tables: seq<(nat, TableRef)>, groups: seq<Group>)

  // What a server writes: a transaction, or a DDL statement, either behind an optional GTID.
  datatype Written =
    | WTransaction(gtid: Option<(seq<Byte>, int)>, schema: string, blocks: seq<Block>, xid: Option<nat>, head: Header, commitHead: Header)
    | WDdl(gtid: Option<(seq<Byte>, int)>, schema: string, text: string, head: Header)

  function TableMapsOf(tables: seq<(nat, TableRef)>): map<nat, TableRef> {
    if tables == [] then map[] else TableMapsOf(tables[..|tables| - 1])[tables[|tables| - 1].0 := tables[|tables| - 1].1]
  }

  // A change of the group: of its table and action, without the image that action has not.
  predicate Belongs(ref: TableRef, action: Action, rc: RowChange) {
    && rc.schema == ref.0 && rc.table == ref.1 && rc.action == action && rc.columnNames == []
    && (action == Insert ==> rc.before == []) && (action == Delete ==> rc.after == [])
  }

  predicate ValidGroup(maps: map<nat, TableRef>, g: Group) {
    && g.tableId in maps && !g.action.Unknown? && (g.stray.Some? ==> g.action == Update)
    && forall i :: 0 <= i < |g.changes| ==> Belongs(maps[g.tableId], g.action, g.changes[i])
  }

  predicate ValidBlock(b: Block) {
    forall i :: 0 <= i < |b.groups| ==> ValidGroup(TableMapsOf(b.tables), b.groups[i])
  }

  predicate ValidWritten(w: Written) {
    match w
    case WTransaction(_, _, blocks, _, _, _) => forall i :: 0 <= i < |blocks| ==> ValidBlock(blocks[i])
    case WDdl(_, _, text, _) => text != "BEGIN" && text != "COMMIT"
  }

  function MapEvents(h: Header, tables: seq<(nat, TableRef)>): seq<Event> {
    seq(|tables|, i requires 0 <= i < |tables| => Event(h, TableMap(tables[i].0, tables[i].1)))
  }

  function KindOf(action: Action): RowsKind {
    match action
    case Insert => WriteRows
    case Update => UpdateRows
    case Delete => DeleteRows
    case Unknown(_) => OtherRows
  }

  // An update's images: before and after, change by change.
  function Interleaved(changes: seq<RowChange>): seq<Image> {
    if changes == [] then [] else [changes[0].before, changes[0].after] + Interleaved(changes[1..])
  }

  function ImagesOf(g: Group): seq<Image> {
    match g.action
    case Insert => Map((rc: RowChange) => rc.after, g.changes)
    case Delete => Map((rc: RowChange) => rc.before, g.changes)
    case _ => Interleaved(g.changes) + (match g.stray case Some(image) => [image] case None => [])
  }

  function RowEvents(h: Header, groups: seq<Group>): seq<Event> {
    seq(|groups|, i requires 0 <= i < |groups| =>
      Event(h, RowsEvent(groups[i].tableId, KindOf(groups[i].action), ImagesOf(groups[i]))))
  }

  function BlocksEvents(h: Header, blocks: seq<Block>): seq<Event> {
    if blocks == [] then []
    else MapEvents(h, blocks[0].tables) + RowEvents(h, blocks[0].groups) + BlocksEvents(h, blocks[1..])
  }

  function GtidEvents(h: Header, gtid: Option<(seq<Byte>, int)>): seq<Event> {
    match gtid case None => [] case Some((sid, gno)) => [Event(h, Gtid(sid, gno))]
  }

  function CommitEvent(w: Written): Event
    requires w.WTransaction?
  {
    Event(w.commitHead, match w.xid case Some(x) => Xid(x) case None => Query(w.schema, "COMMIT"))
  }

  function Serialize(w: Written): seq<Event> {
    match w
    case WTransaction(gtid, schema, blocks, _, h, _) =>
      GtidEvents(h, gtid) + [Event(h, Query(schema, "BEGIN"))] + BlocksEvents(h, blocks) + [CommitEvent(w)]
    case WDdl(gtid, schema, text, h) => GtidEvents(h, gtid) + [Event(h, Query(schema, text))]
  }

  function SerializeAll(ws: seq<Written>): seq<Event> {
    if ws == [] then [] else Serialize(ws[0]) + SerializeAll(ws[1..])
  }

  function ChangesOf(groups: seq<Group>): seq<RowChange> {
    if groups == [] then [] else groups[0].changes + ChangesOf(groups[1..])
  }

  function BlocksRows(blocks: seq<Block>): seq<RowChange> {
    if blocks == [] then [] else ChangesOf(blocks[0].groups) + BlocksRows(blocks[1..])
  }

  // A GTID counts if its server id is not all zero and its text parses.
  function GtidText(cfg: Config, gtid: Option<(seq<Byte>, int)>): string {
    match gtid
    case None => ""
    case Some((sid, gno)) => if (exists b :: b in sid && b != 0) && cfg.parsesGtid(FormatGtid(sid, gno)) then FormatGtid(sid, gno) else ""
  }

  // The transaction a written one is; one without rows, and DDL, is none.
  function Expected(cfg: Config, w: Written): seq<Transaction> {
    match w
    case WDdl(_, _, _, _) => []
    case WTransaction(gtid, schema, blocks, xid, _, ch) =>
      var rows, text, x, commitTime := BlocksRows(blocks), GtidText(cfg, gtid), xid.GetOr(0), ch.ts * 1_000_000_000;
      var id := if text != "" then text else if x > 0 then "xid-" + NatText(x) else "tx-" + cfg.digest(commitTime, rows);
      if rows == [] then [] else [Transaction(id, text, x, commitTime, schema, rows, false)]
  }

  function ExpectedAll(cfg: Config, ws: seq<Written>): seq<Transaction> {
    if ws == [] then [] else Expected(cfg, ws[0]) + ExpectedAll(cfg, ws[1..])
  }

  lemma {:induction false} FoldMaps(cfg: Config, f: ScanFilter, st: State, h: Header, tables: seq<(nat, TableRef)>)
    ensures HandleAll(cfg, f, st, MapEvents(h, tables)) == st.(maps := st.maps + TableMapsOf(tables))
  {
    if tables == [] {
      assert st.maps + map[] == st.maps;
    } else {
      var init, last := tables[..|tables| - 1], tables[|tables| - 1];
      FoldMaps(cfg, f, st, h, init);
      assert MapEvents(h, tables) == MapEvents(h, init) + [Event(h, TableMap(last.0, last.1))];
      HandleAppend(cfg, f, st, MapEvents(h, init), [Event(h, TableMap(last.0, last.1))]);
      HandleOne(cfg, f, HandleAll(cfg, f, st, MapEvents(h, init)), Event(h, TableMap(last.0, last.1)));
      assert (st.maps + TableMapsOf(init))[last.0 := last.1] == st.maps + TableMapsOf(tables);
    }
  }

  lemma HandleOne(cfg: Config, f: ScanFilter, st: State, ev: Event)
    ensures HandleAll(cfg, f, st, [ev]) == Handle(cfg, f, st, ev)
  {
    assert [ev][1..] == [];
  }

  // st with more rows pending.
  function WithRows(st: State, rcs: seq<RowChange>): State
    requires st.pending.Some?
  {
    st.(pending := Some(st.pending.value.(rows := st.pending.value.rows + rcs)))
  }

  lemma WithRowsTwice(st: State, a: seq<RowChange>, b: seq<RowChange>)
    requires st.pending.Some?
    ensures WithRows(WithRows(st, a), b) == WithRows(st, a + b)
  {
    Assoc(st.pending.value.rows, a, b);
  }

  lemma {:induction false} InterleavedAt(changes: seq<RowChange>)
    ensures |Interleaved(changes)| == 2 * |changes|
    ensures forall i :: 0 <= i < |changes| ==>
      Interleaved(changes)[2 * i] == changes[i].before && Interleaved(changes)[2 * i + 1] == changes[i].after
  {
    if changes != [] {
      InterleavedAt(changes[1..]);
      forall i | 0 <= i < |changes|
        ensures Interleaved(changes)[2 * i] == changes[i].before && Interleaved(changes)[2 * i + 1] == changes[i].after
      {
        if i > 0 {
          assert Interleaved(changes)[2 * i] == Interleaved(changes[1..])[2 * (i - 1)];
          assert Interleaved(changes)[2 * i + 1] == Interleaved(changes[1..])[2 * (i - 1) + 1];
        }
      }
    }
  }

  /** A group's event reads back as its changes, a stray image of an update dropped. */
  lemma GroupReadsBack(maps: map<nat, TableRef>, g: Group)
    requires ValidGroup(maps, g)
    ensures RowChangesOf(maps, g.tableId, KindOf(g.action), ImagesOf(g)) == Some(g.changes)
  {
    var images := ImagesOf(g);
    RowEventExact(maps, g.tableId, KindOf(g.action), images);
    if g.action == Update { InterleavedAt(g.changes); }
    var read := Converted(maps[g.tableId], KindOf(g.action), images);
    assert |read| == |g.changes|;
    forall i | 0 <= i < |g.changes| ensures read[i] == g.changes[i] {
      assert Belongs(maps[g.tableId], g.action, g.changes[i]);
    }
    assert read == g.changes;
  }

  lemma {:induction false} FoldRows(cfg: Config, f: ScanFilter, st: State, h: Header, groups: seq<Group>)
    requires st.pending.Some? && forall i :: 0 <= i < |groups| ==> ValidGroup(st.maps, groups[i])
    ensures HandleAll(cfg, f, st, RowEvents(h, groups)) == WithRows(st, ChangesOf(groups))
    decreases |groups|
  {
    if groups == [] {
      assert st.pending.value.rows + [] == st.pending.value.rows;
    } else {
      var first := groups[0].changes;
      GroupReadsBack(st.maps, groups[0]);
      assert RowEvents(h, groups)[1..] == RowEvents(h, groups[1..]);
      assert Handle(cfg, f, st, RowEvents(h, groups)[0]) == WithRows(st, first);
      FoldRows(cfg, f, WithRows(st, first), h, groups[1..]);
      WithRowsTwice(st, first, ChangesOf(groups[1..]));
    }
  }

  lemma FoldBlock(cfg: Config, f: ScanFilter, st: State, h: Header, b: Block)
    requires st.pending.Some? && ValidBlock(b)
    ensures var maps := TableMapsOf(b.tables);
      HandleAll(cfg, f, st, MapEvents(h, b.tables) + RowEvents(h, b.groups)) == WithRows(st.(maps := st.maps + maps), ChangesOf(b.groups))
  {
    var maps := TableMapsOf(b.tables);
    FoldMaps(cfg, f, st, h, b.tables);
    FoldRows(cfg, f, st.(maps := st.maps + maps), h, b.groups);
    HandleAppend(cfg, f, st, MapEvents(h, b.tables), RowEvents(h, b.groups));
  }

  lemma {:induction false} FoldBlocks(cfg: Config, f: ScanFilter, st: State, h: Header, blocks: seq<Block>)
    requires st.pending.Some? && forall i :: 0 <= i < |blocks| ==> ValidBlock(blocks[i])
    ensures var r := HandleAll(cfg, f, st, BlocksEvents(h, blocks));
      r.out == st.out && r.pending == WithRows(st, BlocksRows(blocks)).pending
    decreases |blocks|
  {
    if blocks == [] {
      assert st.pending.value.rows + [] == st.pending.value.rows;
    } else {
      var b := blocks[0];
      var maps := TableMapsOf(b.tables);
      var first := ChangesOf(b.groups);
      var st1 := st.(maps := st.maps + maps);
      FoldBlock(cfg, f, st, h, b);
      HandleAppend(cfg, f, st, MapEvents(h, b.tables) + RowEvents(h, b.groups), BlocksEvents(h, blocks[1..]));
      FoldBlocks(cfg, f, WithRows(st1, first), h, blocks[1..]);
      WithRowsTwice(st1, first, BlocksRows(blocks[1..]));
    }
  }

  lemma NonZeroSid(sid: seq<Byte>)
    ensures IsZeroSid(sid) <==> forall b :: b in sid ==> b == 0
  {
    if forall b :: b in sid ==> b == 0 { assert forall i :: 0 <= i < |sid| ==> sid[i] in sid; }
  }

  lemma FoldGtid(cfg: Config, f: ScanFilter, st: State, h: Header, gtid: Option<(seq<Byte>, int)>)
    requires st.pending == None
    ensures var r := HandleAll(cfg, f, st, GtidEvents(h, gtid));
      r.out == st.out && Opened(r.pending) == EMPTY_PENDING.(gtid := GtidText(cfg, gtid))
  {
    if gtid.Some? {
      HandleOne(cfg, f, st, GtidEvents(h, gtid)[0]);
      NonZeroSid(gtid.value.0);
    }
  }

  lemma FoldCommit(cfg: Config, f: ScanFilter, st: State, w: Written)
    requires Unfiltered(cfg, f) && ValidWritten(w) && w.WTransaction?
    requires st.pending == Some(Pending(w.schema, BlocksRows(w.blocks), 0, GtidText(cfg, w.gtid), None))
    ensures var r := Handle(cfg, f, st, CommitEvent(w)); r.pending == None && r.out == st.out + Expected(cfg, w)
  {
  }

  lemma FoldTransaction(cfg: Config, f: ScanFilter, st: State, w: Written)
    requires Unfiltered(cfg, f) && st.pending == None && ValidWritten(w) && w.WTransaction?
    ensures var r := HandleAll(cfg, f, st, Serialize(w)); r.pending == None && r.out == st.out + Expected(cfg, w)
  {
    var WTransaction(gtid, schema, blocks, _, h, _) := w;
    var begin := Event(h, Query(schema, "BEGIN"));
    var commit := CommitEvent(w);
    var st1 := HandleAll(cfg, f, st, GtidEvents(h, gtid));
    FoldGtid(cfg, f, st, h, gtid);
    var st2 := Handle(cfg, f, st1, begin);
    HandleAppend(cfg, f, st, GtidEvents(h, gtid), [begin]);
    HandleOne(cfg, f, st1, begin);
    var st3 := HandleAll(cfg, f, st2, BlocksEvents(h, blocks));
    FoldBlocks(cfg, f, st2, h, blocks);
    assert [] + BlocksRows(blocks) == BlocksRows(blocks);
    HandleAppend(cfg, f, st, GtidEvents(h, gtid) + [begin], BlocksEvents(h, blocks));
    HandleAppend(cfg, f, st, GtidEvents(h, gtid) + [begin] + BlocksEvents(h, blocks), [commit]);
    HandleOne(cfg, f, st3, commit);
    FoldCommit(cfg, f, st3, w);
  }

  /** DDL leaves nothing pending; rows pending when it comes are emitted with the record's own attributes and
      no commit time, and without pending rows it emits nothing. */
  lemma DdlFlushes(cfg: Config, f: ScanFilter, st: State, h: Header, schema: string, text: string)
    requires text != "BEGIN" && text != "COMMIT"
    ensures var r := Handle(cfg, f, st, Event(h, Query(schema, text)));
      r.pending == None && r.maps == st.maps && r.out == st.out + Emit(cfg, f, Opened(st.pending), h.now)
    ensures Opened(st.pending).rows == [] ==> Handle(cfg, f, st, Event(h, Query(schema, text))).out == st.out
  {
    assert st.out + [] == st.out;
  }

  lemma FoldDdl(cfg: Config, f: ScanFilter, st: State, w: Written)
    requires Unfiltered(cfg, f) && st.pending == None && ValidWritten(w) && w.WDdl?
    ensures var r := HandleAll(cfg, f, st, Serialize(w)); r.pending == None && r.out == st.out
  {
    var ev := Event(w.head, Query(w.schema, w.text));
    var st1 := HandleAll(cfg, f, st, GtidEvents(w.head, w.gtid));
    FoldGtid(cfg, f, st, w.head, w.gtid);
    HandleAppend(cfg, f, st, GtidEvents(w.head, w.gtid), [ev]);
    HandleOne(cfg, f, st1, ev);
    DdlFlushes(cfg, f, st1, w.head, w.schema, w.text);
  }

  lemma FoldWritten(cfg: Config, f: ScanFilter, st: State, w: Written)
    requires Unfiltered(cfg, f) && st.pending == None && ValidWritten(w)
    ensures var r := HandleAll(cfg, f, st, Serialize(w)); r.pending == None && r.out == st.out + Expected(cfg, w)
  {
    if w.WTransaction? {
      FoldTransaction(cfg, f, st, w);
    } else {
      FoldDdl(cfg, f, st, w);
      assert st.out + [] == st.out;
    }
  }

  /** Aggregation inverts serialisation: the transactions come back one for one with their own rows, GTID,
      XID, schema and commit time, and nothing leaks from one to the next or through DDL. */
  lemma {:induction false} AggregationInverts(cfg: Config, f: ScanFilter, st: State, ws: seq<Written>)
    requires Unfiltered(cfg, f) && st.pending == None
    requires forall i :: 0 <= i < |ws| ==> ValidWritten(ws[i])
    ensures HandleAll(cfg, f, st, SerializeAll(ws)).pending == None
    ensures HandleAll(cfg, f, st, SerializeAll(ws)).out == st.out + ExpectedAll(cfg, ws)
    decreases |ws|
  {
    if ws == [] {
      assert st.out + [] == st.out;
    } else {
      FoldWritten(cfg, f, st, ws[0]);
      HandleAppend(cfg, f, st, Serialize(ws[0]), SerializeAll(ws[1..]));
      AggregationInverts(cfg, f, HandleAll(cfg, f, st, Serialize(ws[0])), ws[1..]);
      Assoc(st.out, Expected(cfg, ws[0]), ExpectedAll(cfg, ws[1..]));
    }
  }

  // ---------- filtering at the source is filtering afterwards ----------

  // Every transaction the filter keeps satisfies extra; g is f without that test.
  ghost predicate Refines(cfg: Config, f: ScanFilter, g: ScanFilter, extra: Transaction -> bool) {
    forall p: Pending, now: int :: Emit(cfg, f, p, now) == Filter(extra, Emit(cfg, g, p, now))
  }

  lemma FilterFinish(cfg: Config, f: ScanFilter, g: ScanFilter, extra: Transaction -> bool, st: State, now: int, xid: Option<nat>, at: Option<int>)
    requires Refines(cfg, f, g, extra)
    ensures var r := Finish(cfg, g, st, now, xid, at);
      Finish(cfg, f, st.(out := Filter(extra, st.out)), now, xid, at) == r.(out := Filter(extra, r.out))
  {
    if st.pending.Some? {
      FilterAppend(extra, st.out, Emit(cfg, g, Committed(st.pending.value, xid, at), now));
    }
  }

  lemma FilterOne(cfg: Config, f: ScanFilter, g: ScanFilter, extra: Transaction -> bool, st: State, ev: Event)
    requires Refines(cfg, f, g, extra)
    ensures var r := Handle(cfg, g, st, ev);
      Handle(cfg, f, st.(out := Filter(extra, st.out)), ev) == r.(out := Filter(extra, r.out))
  {
    match ev.body
    case Query(_, text) =>
      FilterFinish(cfg, f, g, extra, st, ev.head.now, None, if text == "COMMIT" then Some(EventTime(ev.head)) else None);
    case Xid(xid) => FilterFinish(cfg, f, g, extra, st, ev.head.now, Some(xid), Some(EventTime(ev.head)));
    case _ =>
  }

  lemma {:induction false} FilterLast(cfg: Config, f: ScanFilter, g: ScanFilter, extra: Transaction -> bool, st: State, events: seq<Event>)
    requires Refines(cfg, f, g, extra)
    ensures HandleAll(cfg, f, st.(out := Filter(extra, st.out)), events)
      == HandleAll(cfg, g, st, events).(out := Filter(extra, HandleAll(cfg, g, st, events).out))
    decreases |events|
  {
    if events != [] {
      FilterOne(cfg, f, g, extra, st, events[0]);
      FilterLast(cfg, f, g, extra, Handle(cfg, g, st, events[0]), events[1..]);
    }
  }

  // ---------- early stop ----------

  function WithoutTime(f: ScanFilter): ScanFilter {
    f.(timeRange := None)
  }

  function InRange(f: ScanFilter): Transaction -> bool {
    tx => TimeMatches(f, tx)
  }

  lemma TimeFilterLast(cfg: Config, f: ScanFilter)
    ensures Refines(cfg, f, WithoutTime(f), InRange(f))
  {
    forall p: Pending, now: int ensures Emit(cfg, f, p, now) == Filter(InRange(f), Emit(cfg, WithoutTime(f), p, now)) {
      var g := WithoutTime(f);
      var emitted := Emit(cfg, g, p, now);
      var tx := Completed(cfg, p, now);
      assert Truncated(cfg, g, tx) == Truncated(cfg, f, tx);
      if emitted != [] {
        assert emitted[1..] == [];
        assert InRange(f)(emitted[0]) == TimeMatches(f, tx);
        assert emitted == [Truncated(cfg, f, tx)];
      }
    }
  }

  predicate IsDdl(ev: Event) {
    ev.body.Query? && ev.body.text != "BEGIN" && ev.body.text != "COMMIT"
  }

  predicate IsCommit(ev: Event) {
    ev.body.Xid? || (ev.body.Query? && ev.body.text == "COMMIT")
  }

  // No DDL arrives while rows are pending.
  predicate NoRowsAtDdl(cfg: Config, f: ScanFilter, st: State, events: seq<Event>)
    decreases |events|
  {
    events == [] ||
    ((IsDdl(events[0]) ==> Opened(st.pending).rows == []) && NoRowsAtDdl(cfg, f, Handle(cfg, f, st, events[0]), events[1..]))
  }

  // From here on every dated event is later than the time range, and commits are dated.
  predicate AllLate(f: ScanFilter, events: seq<Event>) {
    f.timeRange.Some? &&
    forall i :: 0 <= i < |events| ==>
      (events[i].head.ts > 0 ==> EventTime(events[i].head) > f.timeRange.value.1) && (IsCommit(events[i]) ==> events[i].head.ts > 0)
  }

  lemma {:induction false} LateEmitsNothing(cfg: Config, f: ScanFilter, st: State, events: seq<Event>)
    requires AllLate(f, events) && NoRowsAtDdl(cfg, f, st, events)
    ensures HandleAll(cfg, f, st, events).out == st.out
    decreases |events|
  {
    if events != [] {
      assert IsCommit(events[0]) ==> EventTime(events[0].head) > f.timeRange.value.1;
      LateEmitsNothing(cfg, f, Handle(cfg, f, st, events[0]), events[1..]);
    }
  }

  // A scan without early stop and without parse errors.
  function FullScan(cfg: Config, f: ScanFilter, files: seq<File>): seq<Transaction> {
    if files == [] then []
    else HandleAll(cfg, f, FRESH, Visible(f, files[0].name, files[0].events)).out + FullScan(cfg, f, files[1..])
  }

  function VisibleAll(f: ScanFilter, files: seq<File>): seq<Event> {
    if files == [] then [] else Visible(f, files[0].name, files[0].events) + VisibleAll(f, files[1..])
  }

  // Dated events never go back in time, across files; commits are dated.
  predicate Chronological(events: seq<Event>) {
    (forall i, j :: 0 <= i < j < |events| && events[i].head.ts > 0 && events[j].head.ts > 0 ==> events[i].head.ts <= events[j].head.ts) &&
    (forall i :: 0 <= i < |events| && IsCommit(events[i]) ==> events[i].head.ts > 0)
  }

  predicate Orderly(cfg: Config, f: ScanFilter, files: seq<File>) {
    forall i :: 0 <= i < |files| ==> files[i].failure == None && NoRowsAtDdl(cfg, f, FRESH, Visible(f, files[i].name, files[i].events))
  }

  lemma {:induction false} NoRowsAtDdlSuffix(cfg: Config, f: ScanFilter, st: State, xs: seq<Event>, ys: seq<Event>)
    requires NoRowsAtDdl(cfg, f, st, xs + ys)
    ensures NoRowsAtDdl(cfg, f, HandleAll(cfg, f, st, xs), ys)
    decreases |xs|
  {
    if xs == [] {
      assert xs + ys == ys;
    } else {
      assert (xs + ys)[1..] == xs[1..] + ys;
      NoRowsAtDdlSuffix(cfg, f, Handle(cfg, f, st, xs[0]), xs[1..], ys);
    }
  }

  lemma {:induction false} LateFilesEmitNothing(cfg: Config, f: ScanFilter, files: seq<File>)
    requires AllLate(f, VisibleAll(f, files)) && Orderly(cfg, f, files)
    ensures FullScan(cfg, f, files) == []
  {
    if files != [] {
      var head := Visible(f, files[0].name, files[0].events);
      assert forall i :: 0 <= i < |head| ==> head[i] == VisibleAll(f, files)[i];
      assert forall i :: 0 <= i < |VisibleAll(f, files[1..])| ==> VisibleAll(f, files[1..])[i] == VisibleAll(f, files)[|head| + i];
      LateEmitsNothing(cfg, f, FRESH, head);
      LateFilesEmitNothing(cfg, f, files[1..]);
    }
  }

  lemma SuffixLate(f: ScanFilter, all: seq<Event>, k: nat)
    requires Chronological(all) && k < |all| && PastEnd(f, all[k])
    ensures AllLate(f, all[k..])
  {
    forall i | 0 <= i < |all[k..]| && all[k..][i].head.ts > 0 ensures EventTime(all[k..][i].head) > f.timeRange.value.1 {
      assert all[k..][i] == all[k + i];
    }
  }

  lemma SplitLate(f: ScanFilter, events: seq<Event>, rest: seq<Event>, k: nat)
    requires Chronological(events + rest) && k < |events| && PastEnd(f, events[k])
    ensures AllLate(f, events[k..]) && AllLate(f, rest)
  {
    var all := events + rest;
    assert events[k] == all[k];
    SuffixLate(f, all, k);
    assert forall i :: 0 <= i < |events[k..]| ==> events[k..][i] == all[k..][i];
    assert forall i :: 0 <= i < |rest| ==> rest[i] == all[k..][|events| - k + i];
  }

  // Once the scan stops inside a file, neither the rest of that file nor any later file had anything to add.
  lemma StoppedInFile(cfg: Config, f: ScanFilter, events: seq<Event>, more: seq<File>)
    requires Chronological(events + VisibleAll(f, more)) && |BeforeEnd(f, events)| < |events|
    requires NoRowsAtDdl(cfg, f, FRESH, events) && Orderly(cfg, f, more)
    ensures HandleAll(cfg, f, FRESH, events).out == HandleAll(cfg, f, FRESH, BeforeEnd(f, events)).out
    ensures FullScan(cfg, f, more) == []
  {
    var seen := BeforeEnd(f, events);
    var late := events[|seen|..];
    SplitLate(f, events, VisibleAll(f, more), |seen|);
    assert events == seen + late;
    HandleAppend(cfg, f, FRESH, seen, late);
    NoRowsAtDdlSuffix(cfg, f, FRESH, seen, late);
    LateEmitsNothing(cfg, f, HandleAll(cfg, f, FRESH, seen), late);
    LateFilesEmitNothing(cfg, f, more);
  }

  lemma ChronologicalSuffix(xs: seq<Event>, ys: seq<Event>)
    requires Chronological(xs + ys)
    ensures Chronological(ys)
  {
    assert forall i :: 0 <= i < |ys| ==> ys[i] == (xs + ys)[|xs| + i];
  }

  lemma {:induction false} StopLosesNothing(cfg: Config, f: ScanFilter, files: seq<File>)
    requires Orderly(cfg, f, files) && Chronological(VisibleAll(f, files))
    ensures Scan(cfg, f, files) == (FullScan(cfg, f, files), None)
  {
    if files != [] {
      var events := Visible(f, files[0].name, files[0].events);
      var seen := BeforeEnd(f, events);
      assert NoRowsAtDdl(cfg, f, FRESH, events) && files[0].failure == None;
      assert Orderly(cfg, f, files[1..]);
      if |seen| < |events| {
        StoppedInFile(cfg, f, events, files[1..]);
        assert HandleAll(cfg, f, FRESH, seen).out + [] == HandleAll(cfg, f, FRESH, seen).out;
      } else {
        assert seen == events;
        ChronologicalSuffix(events, VisibleAll(f, files[1..]));
        StopLosesNothing(cfg, f, files[1..]);
      }
    }
  }

  lemma {:induction false} FullScanFilterLast(cfg: Config, f: ScanFilter, g: ScanFilter, extra: Transaction -> bool, files: seq<File>)
    requires Refines(cfg, f, g, extra) && f.endPos == g.endPos
    ensures FullScan(cfg, f, files) == Filter(extra, FullScan(cfg, g, files))
  {
    if files != [] {
      SameVisible(f, g, files[0].name, files[0].events);
      var events := Visible(f, files[0].name, files[0].events);
      FilterLast(cfg, f, g, extra, FRESH, events);
      assert FRESH.(out := Filter(extra, FRESH.out)) == FRESH;
      FilterAppend(extra, HandleAll(cfg, g, FRESH, events).out, FullScan(cfg, g, files[1..]));
      FullScanFilterLast(cfg, f, g, extra, files[1..]);
    }
  }

  lemma {:induction false} SameVisible(f: ScanFilter, g: ScanFilter, name: string, events: seq<Event>)
    requires f.endPos == g.endPos
    ensures Visible(f, name, events) == Visible(g, name, events)
  {
    if events != [] { SameVisible(f, g, name, events[1..]); }
  }

  /** Stopping at the first event past the time range yields exactly the transactions of a full scan,
      filtered by commit time afterwards. */
  lemma EarlyStopPreservesMeaning(cfg: Config, f: ScanFilter, files: seq<File>)
    requires f.timeRange.Some?
    requires Orderly(cfg, f, files) && Chronological(VisibleAll(f, files))
    ensures Scan(cfg, f, files) == (Filter(InRange(f), FullScan(cfg, WithoutTime(f), files)), None)
  {
    StopLosesNothing(cfg, f, files);
    TimeFilterLast(cfg, f);
    FullScanFilterLast(cfg, f, WithoutTime(f), InRange(f), files);
  }

  // ---------- the directed second scan ----------

  function Unselected(f: ScanFilter): ScanFilter {
    f.(selected := [])
  }

  function Chosen(f: ScanFilter): Transaction -> bool {
    tx => SelectionMatches(f, tx)
  }

  lemma SelectionFilterLast(cfg: Config, f: ScanFilter)
    ensures Refines(cfg, f, Unselected(f), Chosen(f))
  {
    forall p: Pending, now: int ensures Emit(cfg, f, p, now) == Filter(Chosen(f), Emit(cfg, Unselected(f), p, now)) {
      var g := Unselected(f);
      var emitted := Emit(cfg, g, p, now);
      var tx := Completed(cfg, p, now);
      assert Truncated(cfg, g, tx) == Truncated(cfg, f, tx);
      if emitted != [] {
        assert emitted[1..] == [];
        assert Chosen(f)(emitted[0]) == SelectionMatches(f, tx);
        assert emitted == [Truncated(cfg, f, tx)];
      }
    }
  }

  // The same events, read at other times.
  predicate SameEvents(xs: seq<Event>, ys: seq<Event>) {
    |xs| == |ys| && forall i :: 0 <= i < |xs| ==> ys[i].body == xs[i].body && ys[i].head == xs[i].head.(now := ys[i].head.now)
  }

  predicate SameFiles(xs: seq<File>, ys: seq<File>) {
    |xs| == |ys| && forall i :: 0 <= i < |xs| ==>
      ys[i].name == xs[i].name && ys[i].failure == xs[i].failure && SameEvents(xs[i].events, ys[i].events)
  }

  lemma {:induction false} ClockUnread(cfg: Config, f: ScanFilter, st: State, xs: seq<Event>, ys: seq<Event>)
    requires SameEvents(xs, ys) && NoRowsAtDdl(cfg, f, st, xs)
    requires st.pending.Some? ==> st.pending.value.commitTs == None
    ensures HandleAll(cfg, f, st, xs) == HandleAll(cfg, f, st, ys)
    decreases |xs|
  {
    if xs != [] {
      assert ys[0].body == xs[0].body;
      assert Handle(cfg, f, st, xs[0]) == Handle(cfg, f, st, ys[0]);
      ClockUnread(cfg, f, Handle(cfg, f, st, xs[0]), xs[1..], ys[1..]);
    }
  }

  lemma {:induction false} SameSeen(f: ScanFilter, name: string, xs: seq<Event>, ys: seq<Event>)
    requires SameEvents(xs, ys)
    ensures SameEvents(Visible(f, name, xs), Visible(f, name, ys))
    ensures SameEvents(BeforeEnd(f, xs), BeforeEnd(f, ys))
    decreases |xs|
  {
    if xs != [] {
      assert ys[0].head == xs[0].head.(now := ys[0].head.now);
      SameSeen(f, name, xs[1..], ys[1..]);
    }
  }

  // No file hands the engine DDL while rows are pending.
  predicate ExplicitCommits(cfg: Config, f: ScanFilter, files: seq<File>) {
    forall i :: 0 <= i < |files| ==>
      NoRowsAtDdl(cfg, f, FRESH, BeforeEnd(f, Visible(f, files[i].name, files[i].events)))
  }

  lemma {:induction false} SameScan(cfg: Config, f: ScanFilter, xs: seq<File>, ys: seq<File>)
    requires SameFiles(xs, ys) && ExplicitCommits(cfg, f, xs)
    ensures Scan(cfg, f, xs) == Scan(cfg, f, ys)
    decreases |xs|
  {
    if xs != [] {
      SameSeen(f, xs[0].name, xs[0].events, ys[0].events);
      var vx, vy := Visible(f, xs[0].name, xs[0].events), Visible(f, ys[0].name, ys[0].events);
      SameSeen(f, xs[0].name, vx, vy);
      ClockUnread(cfg, f, FRESH, BeforeEnd(f, vx), BeforeEnd(f, vy));
      SameScan(cfg, f, xs[1..], ys[1..]);
    }
  }

  lemma {:induction false} ScanFilterLast(cfg: Config, f: ScanFilter, g: ScanFilter, extra: Transaction -> bool, files: seq<File>)
    requires Refines(cfg, f, g, extra) && f.endPos == g.endPos && f.timeRange == g.timeRange
    ensures Scan(cfg, f, files) == (Filter(extra, Scan(cfg, g, files).0), Scan(cfg, g, files).1)
  {
    if files != [] {
      SameVisible(f, g, files[0].name, files[0].events);
      var events := Visible(f, files[0].name, files[0].events);
      SameBeforeEnd(f, g, events);
      var seen := BeforeEnd(f, events);
      FilterLast(cfg, f, g, extra, FRESH, seen);
      assert FRESH.(out := Filter(extra, FRESH.out)) == FRESH;
      FilterAppend(extra, HandleAll(cfg, g, FRESH, seen).out, Scan(cfg, g, files[1..]).0);
      ScanFilterLast(cfg, f, g, extra, files[1..]);
    }
  }

  lemma {:induction false} SameBeforeEnd(f: ScanFilter, g: ScanFilter, events: seq<Event>)
    requires f.timeRange == g.timeRange
    ensures BeforeEnd(f, events) == BeforeEnd(g, events)
  {
    if events != [] { SameBeforeEnd(f, g, events[1..]); }
  }

  /** A second scan of the same files, at another time, for a non-empty selection finds exactly the selected
      transactions of the first, in the first scan's order, anonymous ones included. */
  lemma RescanFindsSelection(cfg: Config, f: ScanFilter, first: seq<File>, second: seq<File>)
    requires SameFiles(first, second) && ExplicitCommits(cfg, f, first) && f.selected != []
    ensures Scan(cfg, f, second)
      == (Filter((tx: Transaction) => tx.txId in f.selected, Scan(cfg, Unselected(f), first).0), Scan(cfg, Unselected(f), first).1)
  {
    SameScan(cfg, f, first, second);
    SelectionFilterLast(cfg, f);
    ScanFilterLast(cfg, f, Unselected(f), Chosen(f), first);
    FilterPointwise(Chosen(f), (tx: Transaction) => tx.txId in f.selected, Scan(cfg, Unselected(f), first).0);
  }

  lemma {:induction false} FilterPointwise<A>(p: A -> bool, q: A -> bool, xs: seq<A>)
    requires forall i :: 0 <= i < |xs| ==> p(xs[i]) == q(xs[i])
    ensures Filter(p, xs) == Filter(q, xs)
  {
    if xs != [] { FilterPointwise(p, q, xs[1..]); }
  }
}
