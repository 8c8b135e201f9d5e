/**
 The scan engine (internal/binlog/engine.go): binlog events folded into transactions, filtered and
 truncated on the way out. Events carry the wall-clock reading taken when they are handled.
 */
module Engine {
  import opened Base
  import opened Values
  import opened SqlLexis

  type TableRef = (string, string)

  datatype RowsKind = WriteRows | UpdateRows | DeleteRows | OtherRows

  datatype Body =
    | FormatDescription
    | RotateEvent
    | TableMap(id: nat, ref: TableRef)
    | RowsEvent(tableId: nat, kind: RowsKind, images: seq<Image>)
    | Query(schema: string, text: string)
    | Xid(xid: nat)
    | Gtid(sid: seq<Byte>, gno: int)
    | MariadbGtid
    | OtherEvent

  // ts is in whole seconds, 0 when absent; now is the clock when the event is handled, in nanoseconds.
  datatype Header = Header(ts: nat, logPos: nat, now: int)

  datatype Event = Event(head: Header, body: Body)

  const NANOS := 1_000_000_000

  // A binlog file: the events its reader yields, then possibly a parse error.
  datatype File = File(name: string, events: seq<Event>, failure: Option<string>)

  datatype ScanFilter = ScanFilter(
    timeRange: Option<(int, int)>,
    gtidMatch: Option<string -> bool>,
    tables: seq<TableRef>,
    endPos: Option<(string, nat)>,
    maxRowsPerTx: int,
    selected: seq<string>)

  // parsesGtid says which GTID texts parse; digest is the content hash behind anonymous identities.
  datatype Config = Config(parsesGtid: string -> bool, digest: (int, seq<RowChange>) -> string, maxRowsPerTx: int)

  datatype Pending = Pending(schema: string, rows: seq<RowChange>, xid: nat, gtid: string, commitTs: Option<int>)

  const EMPTY_PENDING := Pending("", [], 0, "", None)

  // ---------- pure parts ----------

  function EventTime(h: Header): int {
    h.ts * NANOS
  }

  predicate IsZeroSid(sid: seq<Byte>) {
    forall i :: 0 <= i < |sid| ==> sid[i] == 0
  }

  function FormatGtid(sid: seq<Byte>, gno: int): string {
    if |sid| != 16 then "" else
    HexText(sid[0..4]) + "-" + HexText(sid[4..6]) + "-" + HexText(sid[6..8]) + "-"
    + HexText(sid[8..10]) + "-" + HexText(sid[10..16]) + ":" + IntText(gno)
  }

  function UpdatePairs(ref: TableRef, images: seq<Image>): seq<RowChange> {
    if |images| < 2 then []
    else [RowChange(ref.0, ref.1, Update, images[0], images[1], [])] + UpdatePairs(ref, images[2..])
  }

  // The row changes of a rows event, or None for a row event that is skipped with a warning.
  function RowChangesOf(maps: map<nat, TableRef>, tableId: nat, kind: RowsKind, images: seq<Image>): Option<seq<RowChange>> {
    if tableId !in maps then None
    else
      var ref := maps[tableId];
      match kind
      case WriteRows => Some(Map(image => RowChange(ref.0, ref.1, Insert, [], image, []), images))
      case UpdateRows => Some(UpdatePairs(ref, images))
      case DeleteRows => Some(Map(image => RowChange(ref.0, ref.1, Delete, image, [], []), images))
      case OtherRows => None
  }

  // Two equal runs give an anonymous transaction the same identity: it depends on commit time and rows only.
  function TxIdOf(cfg: Config, gtid: string, xid: nat, commitTime: int, rows: seq<RowChange>): string {
    if gtid != "" then gtid
    else if xid != 0 then "xid-" + NatText(xid)
    else "tx-" + cfg.digest(commitTime, rows)
  }

  predicate TimeMatches(f: ScanFilter, tx: Transaction) {
    f.timeRange.Some? ==> f.timeRange.value.0 <= tx.commitTime <= f.timeRange.value.1
  }

  predicate SelectionMatches(f: ScanFilter, tx: Transaction) {
    f.selected != [] ==> tx.txId in f.selected
  }

  predicate OtherwiseMatches(f: ScanFilter, tx: Transaction) {
    (f.gtidMatch.Some? && tx.gtid != "" ==> f.gtidMatch.value(tx.gtid)) &&
    (f.tables != [] ==> exists i :: 0 <= i < |tx.statements| && (tx.statements[i].schema, tx.statements[i].table) in f.tables)
  }

  predicate MatchesFilter(f: ScanFilter, tx: Transaction) {
    TimeMatches(f, tx) && SelectionMatches(f, tx) && OtherwiseMatches(f, tx)
  }

  function Truncated(cfg: Config, f: ScanFilter, tx: Transaction): Transaction {
    var limit := if f.maxRowsPerTx == 0 then cfg.maxRowsPerTx else f.maxRowsPerTx;
    if 0 < limit < |tx.statements| then tx.(statements := tx.statements[..limit], truncated := true) else tx
  }

  // The transaction a pending record becomes, before any filter.
  function Completed(cfg: Config, p: Pending, now: int): Transaction {
    var commitTime := match p.commitTs case Some(t) => t case None => now;
    Transaction(TxIdOf(cfg, p.gtid, p.xid, commitTime, p.rows), p.gtid, p.xid, commitTime, p.schema, p.rows, false)
  }

  function Emit(cfg: Config, f: ScanFilter, p: Pending, now: int): seq<Transaction> {
    if p.rows == [] then []
    else
      var tx := Completed(cfg, p, now);
      if MatchesFilter(f, tx) then [Truncated(cfg, f, tx)] else []
  }

  // ---------- the fold ----------

  datatype State = State(pending: Option<Pending>, maps: map<nat, TableRef>, out: seq<Transaction>)

  function Opened(p: Option<Pending>): Pending {
    match p case Some(v) => v case None => EMPTY_PENDING
  }

  // The pending record with the commit's XID and time, where the commit event has them.
  function Committed(p: Pending, xid: Option<nat>, at: Option<int>): Pending {
    p.(xid := match xid case Some(x) => x case None => p.xid,
       commitTs := match at case Some(t) => Some(t) case None => p.commitTs)
  }

  // Emits what is pending, if anything.
  function Finish(cfg: Config, f: ScanFilter, st: State, now: int, xid: Option<nat>, at: Option<int>): State {
    match st.pending
    case None => st
    case Some(p) => State(None, st.maps, st.out + Emit(cfg, f, Committed(p, xid, at), now))
  }

  function Handle(cfg: Config, f: ScanFilter, st: State, ev: Event): State {
    match ev.body
    case TableMap(id, ref) => st.(maps := st.maps[id := ref])
    case RowsEvent(id, kind, images) =>
      (match RowChangesOf(st.maps, id, kind, images)
        case None => st
        case Some(rcs) => var p := Opened(st.pending); st.(pending := Some(p.(rows := p.rows + rcs))))
    case Query(schema, text) =>
      if text == "BEGIN" then st.(pending := Some(Opened(st.pending).(schema := schema)))
      else if text == "COMMIT" then Finish(cfg, f, st, ev.head.now, None, Some(EventTime(ev.head)))
      else Finish(cfg, f, st, ev.head.now, None, None)
    case Xid(xid) => Finish(cfg, f, st, ev.head.now, Some(xid), Some(EventTime(ev.head)))
    case Gtid(sid, gno) =>
      var p := Opened(st.pending);
      var gtid := FormatGtid(sid, gno);
      st.(pending := Some(if !IsZeroSid(sid) && cfg.parsesGtid(gtid) then p.(gtid := gtid) else p))
    case MariadbGtid => st.(pending := Some(Opened(st.pending)))
    case _ => st
  }

  function HandleAll(cfg: Config, f: ScanFilter, st: State, events: seq<Event>): State
    decreases |events|
  {
    if events == [] then st else HandleAll(cfg, f, Handle(cfg, f, st, events[0]), events[1..])
  }

  // The events of a file up to the end position, if that lies in this file.
  function Visible(f: ScanFilter, name: string, events: seq<Event>): seq<Event> {
    if events == [] then []
    else if f.endPos.Some? && f.endPos.value.0 != "" && name == f.endPos.value.0 && events[0].head.logPos > f.endPos.value.1 then []
    else [events[0]] + Visible(f, name, events[1..])
  }

  predicate PastEnd(f: ScanFilter, ev: Event) {
    f.timeRange.Some? && ev.head.ts > 0 && EventTime(ev.head) > f.timeRange.value.1
  }

  // The events before the first one past the time range.
  function BeforeEnd(f: ScanFilter, events: seq<Event>): (r: seq<Event>)
    ensures |r| <= |events| && r == events[..|r|]
    ensures |r| < |events| ==> PastEnd(f, events[|r|])
  {
    if events == [] || PastEnd(f, events[0]) then []
    else
      assert events == [events[0]] + events[1..];
      [events[0]] + BeforeEnd(f, events[1..])
  }

  const FRESH := State(None, map[], [])

  // Scanning the files: transactions in order, then the parse error if one was met.
  function Scan(cfg: Config, f: ScanFilter, files: seq<File>): (seq<Transaction>, Option<string>) {
    if files == [] then ([], None)
    else
      var events := Visible(f, files[0].name, files[0].events);
      var seen := BeforeEnd(f, events);
      var out := HandleAll(cfg, f, FRESH, seen).out;
      if |seen| < |events| then (out, None)
      else if |events| == |files[0].events| && files[0].failure.Some? then (out, files[0].failure)
      else
        var (more, err) := Scan(cfg, f, files[1..]);
        (out + more, err)
  }

  // ---------- the engine ----------

  datatype Stop = Continue | PastTimeEnd | ParseFailed(err: string)

  class Scanner {
    const cfg: Config
    var pending: Option<Pending>
    var tableMaps: map<nat, TableRef>
    var txs: seq<Transaction>

    constructor (cfg: Config)
      ensures this.cfg == cfg && View() == FRESH
    {
      this.cfg := cfg;
      pending, tableMaps, txs := None, map[], [];
    }

    function View(): State
      reads this
    {
      State(pending, tableMaps, txs)
    }

    method EmitPending(p: Pending, f: ScanFilter, now: int)
      modifies this`txs
      ensures txs == old(txs) + Emit(cfg, f, p, now)
    {
      if |p.rows| == 0 {
        return;
      }
      var q := p;
      if q.commitTs.None? {
        q := q.(commitTs := Some(now));
      }
      var tx := Transaction(TxIdOf(cfg, q.gtid, q.xid, q.commitTs.value, q.rows), q.gtid, q.xid, q.commitTs.value, q.schema, q.rows, false);
      if !MatchesFilter(f, tx) {
        return;
      }
      var limit := f.maxRowsPerTx;
      if limit == 0 {
        limit := cfg.maxRowsPerTx;
      }
      if limit > 0 && |tx.statements| > limit {
        tx := tx.(statements := tx.statements[..limit], truncated := true);
      }
      txs := txs + [tx];
    }

    method HandleEvent(ev: Event, f: ScanFilter)
      modifies this
      ensures View() == Handle(cfg, f, old(View()), ev)
    {
      match ev.body {
        case TableMap(id, ref) => tableMaps := tableMaps[id := ref];
        case RowsEvent(id, kind, images) =>
          var rcs := RowChangesOf(tableMaps, id, kind, images);
          if rcs.None? {
            return;
          }
          if pending.None? {
            pending := Some(EMPTY_PENDING);
          }
          pending := Some(pending.value.(rows := pending.value.rows + rcs.value));
        case Query(schema, text) =>
          if text == "BEGIN" {
            if pending.None? {
              pending := Some(EMPTY_PENDING);
            }
            pending := Some(pending.value.(schema := schema));
          } else if text == "COMMIT" {
            if pending.Some? {
              EmitPending(pending.value.(commitTs := Some(EventTime(ev.head))), f, ev.head.now);
              pending := None;
            }
          } else {
            if pending.Some? {
              EmitPending(pending.value, f, ev.head.now);
              pending := None;
            }
          }
        case Xid(xid) =>
          if pending.Some? {
            EmitPending(pending.value.(xid := xid, commitTs := Some(EventTime(ev.head))), f, ev.head.now);
            pending := None;
          }
        case Gtid(sid, gno) =>
          if pending.None? {
            pending := Some(EMPTY_PENDING);
          }
          if !IsZeroSid(sid) {
            var gtid := FormatGtid(sid, gno);
            if cfg.parsesGtid(gtid) {
              pending := Some(pending.value.(gtid := gtid));
            }
          }
        case MariadbGtid =>
          if pending.None? {
            pending := Some(EMPTY_PENDING);
          }
        case _ =>
      }
    }

    method ParseFile(file: File, f: ScanFilter) returns (stop: Stop)
      modifies this
      ensures var events := Visible(f, file.name, file.events);
        var seen := BeforeEnd(f, events);
        txs == old(txs) + HandleAll(cfg, f, FRESH, seen).out
        && stop == (if |seen| < |events| then PastTimeEnd
          else if |events| == |file.events| && file.failure.Some? then ParseFailed(file.failure.value)
          else Continue)
    {
      pending, tableMaps := None, map[];
      ghost var start := View();
      var i := 0;
      assert file.events[0..] == file.events;
      FileRunMeans(cfg, f, file.name, file.failure, start, file.events);
      OutPrefix(cfg, f, FRESH, txs, BeforeEnd(f, Visible(f, file.name, file.events)));
      assert txs + [] == txs;
      while i < |file.events|
        invariant 0 <= i <= |file.events|
        invariant FileRun(cfg, f, file.name, file.failure, View(), file.events[i..])
          == FileRun(cfg, f, file.name, file.failure, start, file.events)
      {
        var ev := file.events[i];
        assert file.events[i..][1..] == file.events[i + 1..];
        if f.endPos.Some? && f.endPos.value.0 != "" && file.name == f.endPos.value.0 && ev.head.logPos > f.endPos.value.1 {
          return Continue;
        }
        if f.timeRange.Some? && ev.head.ts > 0 && EventTime(ev.head) > f.timeRange.value.1 {
          return PastTimeEnd;
        }
        HandleEvent(ev, f);
        i := i + 1;
      }
      if file.failure.Some? {
        return ParseFailed(file.failure.value);
      }
      return Continue;
    }

    method RunParseLoop(files: seq<File>, f: ScanFilter) returns (err: Option<string>)
      modifies this
      ensures txs == old(txs) + Scan(cfg, f, files).0
      ensures err == Scan(cfg, f, files).1
    {
      ghost var before := txs;
      assert files[0..] == files;
      for i := 0 to |files|
        invariant txs + Scan(cfg, f, files[i..]).0 == before + Scan(cfg, f, files).0
        invariant Scan(cfg, f, files[i..]).1 == Scan(cfg, f, files).1
      {
        assert files[i..][1..] == files[i + 1..];
        var stop := ParseFile(files[i], f);
        match stop {
          case PastTimeEnd => return None;
          case ParseFailed(e) => return Some(e);
          case Continue =>
        }
      }
      return None;
    }
  }

  // ---------- how the fold composes ----------

  lemma {:induction false} HandleAppend(cfg: Config, f: ScanFilter, st: State, xs: seq<Event>, ys: seq<Event>)
    ensures HandleAll(cfg, f, st, xs + ys) == HandleAll(cfg, f, HandleAll(cfg, f, st, xs), ys)
    decreases |xs|
  {
    if xs == [] {
      assert xs + ys == ys;
    } else {
      assert (xs + ys)[1..] == xs[1..] + ys;
      HandleAppend(cfg, f, Handle(cfg, f, st, xs[0]), xs[1..], ys);
    }
  }

  lemma FinishPrefix(cfg: Config, f: ScanFilter, st: State, before: seq<Transaction>, now: int, xid: Option<nat>, at: Option<int>)
    ensures var r := Finish(cfg, f, st, now, xid, at);
      Finish(cfg, f, st.(out := before + st.out), now, xid, at) == r.(out := before + r.out)
  {
    if st.pending.Some? { Assoc(before, st.out, Emit(cfg, f, Committed(st.pending.value, xid, at), now)); }
  }

  lemma HandlePrefix(cfg: Config, f: ScanFilter, st: State, before: seq<Transaction>, ev: Event)
    ensures var r := Handle(cfg, f, st, ev);
      Handle(cfg, f, st.(out := before + st.out), ev) == r.(out := before + r.out)
  {
    match ev.body
    case Query(_, text) =>
      FinishPrefix(cfg, f, st, before, ev.head.now, None, if text == "COMMIT" then Some(EventTime(ev.head)) else None);
    case Xid(xid) => FinishPrefix(cfg, f, st, before, ev.head.now, Some(xid), Some(EventTime(ev.head)));
    case _ =>
  }

  // Transactions already out stay in front and do not influence the rest.
  lemma {:induction false} OutPrefix(cfg: Config, f: ScanFilter, st: State, before: seq<Transaction>, events: seq<Event>)
    ensures HandleAll(cfg, f, st.(out := before + st.out), events)
      == HandleAll(cfg, f, st, events).(out := before + HandleAll(cfg, f, st, events).out)
    decreases |events|
  {
    if events != [] {
      HandlePrefix(cfg, f, st, before, events[0]);
      OutPrefix(cfg, f, Handle(cfg, f, st, events[0]), before, events[1..]);
    }
  }

  // ---------- one file, event by event ----------

  predicate PastPosition(f: ScanFilter, name: string, ev: Event) {
    f.endPos.Some? && f.endPos.value.0 != "" && name == f.endPos.value.0 && ev.head.logPos > f.endPos.value.1
  }

  // What parsing the rest of a file leaves out and how it stops.
  function FileRun(cfg: Config, f: ScanFilter, name: string, failure: Option<string>, st: State, events: seq<Event>): (seq<Transaction>, Stop)
    decreases |events|
  {
    if events == [] then (st.out, match failure case Some(e) => ParseFailed(e) case None => Continue)
    else if PastPosition(f, name, events[0]) then (st.out, Continue)
    else if PastEnd(f, events[0]) then (st.out, PastTimeEnd)
    else FileRun(cfg, f, name, failure, Handle(cfg, f, st, events[0]), events[1..])
  }

  lemma {:induction false} FileRunMeans(cfg: Config, f: ScanFilter, name: string, failure: Option<string>, st: State, events: seq<Event>)
    ensures var visible := Visible(f, name, events);
      var seen := BeforeEnd(f, visible);
      FileRun(cfg, f, name, failure, st, events) == (HandleAll(cfg, f, st, seen).out,
        if |seen| < |visible| then PastTimeEnd
        else if |visible| == |events| && failure.Some? then ParseFailed(failure.value)
        else Continue)
    decreases |events|
  {
    if events != [] && !PastPosition(f, name, events[0]) {
      var rest := Visible(f, name, events[1..]);
      assert Visible(f, name, events) == [events[0]] + rest;
      if !PastEnd(f, events[0]) {
        FileRunMeans(cfg, f, name, failure, Handle(cfg, f, st, events[0]), events[1..]);
        Unroll(cfg, f, st, events[0], rest);
      }
    }
  }

  lemma Unroll(cfg: Config, f: ScanFilter, st: State, ev: Event, rest: seq<Event>)
    requires !PastEnd(f, ev)
    ensures BeforeEnd(f, [ev] + rest) == [ev] + BeforeEnd(f, rest)
    ensures HandleAll(cfg, f, st, BeforeEnd(f, [ev] + rest)) == HandleAll(cfg, f, Handle(cfg, f, st, ev), BeforeEnd(f, rest))
  {
    assert ([ev] + rest)[1..] == rest;
    assert ([ev] + BeforeEnd(f, rest))[1..] == BeforeEnd(f, rest);
  }
}
