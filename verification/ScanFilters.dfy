/**
 What a scan lets through (internal/binlog/engine.go): the filter and the row limit on transactions, the end
 position and the time range on events, and how a scan ends, stated on the fields themselves.
 */
module ScanFilters {
  import opened Base
  import opened Values
  import opened SqlLexis
  import opened Engine

  // ---------- transactions ----------

  // A transaction with these fields and rows passes the filter. The time range includes both ends; a
  // transaction without GTID passes every GTID set; one row in one of the tables is enough.
  predicate Wanted(f: ScanFilter, id: string, gtid: string, commitTime: int, rows: seq<RowChange>) {
    && (f.timeRange.Some? ==> f.timeRange.value.0 <= commitTime && commitTime <= f.timeRange.value.1)
    && (f.gtidMatch.Some? ==> gtid == "" || f.gtidMatch.value(gtid))
    && (f.selected == [] || id in f.selected)
    && (f.tables == [] || exists rc :: rc in rows && (rc.schema, rc.table) in f.tables)
  }

  // The statements are the rows, or the first limit of them, marked truncated, if there are more.
  predicate Limited(limit: int, rows: seq<RowChange>, tx: Transaction) {
    if limit <= 0 || |rows| <= limit then tx.statements == rows && !tx.truncated
    else tx.statements == rows[..limit] && tx.truncated
  }

  // The filter's own limit, or without one the scanner's.
  function RowLimit(cfg: Config, f: ScanFilter): int {
    if f.maxRowsPerTx != 0 then f.maxRowsPerTx else cfg.maxRowsPerTx
  }

  lemma TablesMatch(f: ScanFilter, rows: seq<RowChange>)
    ensures (exists i :: 0 <= i < |rows| && (rows[i].schema, rows[i].table) in f.tables)
      <==> exists rc :: rc in rows && (rc.schema, rc.table) in f.tables
  {
    if i :| 0 <= i < |rows| && (rows[i].schema, rows[i].table) in f.tables { assert rows[i] in rows; }
  }

  lemma MatchesIff(f: ScanFilter, tx: Transaction)
    ensures MatchesFilter(f, tx) <==> Wanted(f, tx.txId, tx.gtid, tx.commitTime, tx.statements)
  {
    TablesMatch(f, tx.statements);
  }

  // A pending record's commit time: its own, or the clock's.
  function CommitTime(p: Pending, now: int): int {
    p.commitTs.GetOr(now)
  }

  function Identity(cfg: Config, p: Pending, now: int): string {
    if p.gtid != "" then p.gtid
    else if p.xid > 0 then "xid-" + NatText(p.xid)
    else "tx-" + cfg.digest(CommitTime(p, now), p.rows)
  }

  /** A pending record is emitted exactly when it has rows and passes the filter, once, with its own fields and
      its rows up to the limit. The filter sees all of them. */
  lemma EmittedExactly(cfg: Config, f: ScanFilter, p: Pending, now: int)
    ensures |Emit(cfg, f, p, now)| == if p.rows != [] && Wanted(f, Identity(cfg, p, now), p.gtid, CommitTime(p, now), p.rows) then 1 else 0
    ensures forall tx :: tx in Emit(cfg, f, p, now) ==>
      tx.txId == Identity(cfg, p, now) && tx.gtid == p.gtid && tx.xid == p.xid && tx.schema == p.schema
      && tx.commitTime == CommitTime(p, now) && Limited(RowLimit(cfg, f), p.rows, tx)
  {
    MatchesIff(f, Completed(cfg, p, now));
  }

  // tx is what the filter and the limit leave of some rows.
  ghost predicate Delivered(cfg: Config, f: ScanFilter, tx: Transaction) {
    exists rows: seq<RowChange> :: rows != [] && Wanted(f, tx.txId, tx.gtid, tx.commitTime, rows) && Limited(RowLimit(cfg, f), rows, tx)
  }

  lemma FinishDelivers(cfg: Config, f: ScanFilter, st: State, now: int, xid: Option<nat>, at: Option<int>)
    requires forall tx :: tx in st.out ==> Delivered(cfg, f, tx)
    ensures forall tx :: tx in Finish(cfg, f, st, now, xid, at).out ==> Delivered(cfg, f, tx)
  {
    if st.pending.Some? {
      var p := Committed(st.pending.value, xid, at);
      EmittedExactly(cfg, f, p, now);
      forall tx | tx in Emit(cfg, f, p, now) ensures Delivered(cfg, f, tx) {
        assert Limited(RowLimit(cfg, f), p.rows, tx);
      }
    }
  }

  lemma {:induction false} FoldDelivers(cfg: Config, f: ScanFilter, st: State, events: seq<Event>)
    requires forall tx :: tx in st.out ==> Delivered(cfg, f, tx)
    ensures forall tx :: tx in HandleAll(cfg, f, st, events).out ==> Delivered(cfg, f, tx)
    decreases |events|
  {
    if events != [] {
      var ev := events[0];
      match ev.body {
        case Query(_, text) => FinishDelivers(cfg, f, st, ev.head.now, None, if text == "COMMIT" then Some(EventTime(ev.head)) else None);
        case Xid(xid) => FinishDelivers(cfg, f, st, ev.head.now, Some(xid), Some(EventTime(ev.head)));
        case _ =>
      }
      FoldDelivers(cfg, f, Handle(cfg, f, st, ev), events[1..]);
    }
  }

  /** Whatever the files hold, every transaction a scan returns has rows, passes the filter field by field, and
      is cut exactly when it has more rows than the limit. */
  lemma {:induction false} ScanDelivers(cfg: Config, f: ScanFilter, files: seq<File>)
    ensures forall tx :: tx in Scan(cfg, f, files).0 ==> Delivered(cfg, f, tx)
  {
    if files != [] {
      FoldDelivers(cfg, f, FRESH, BeforeEnd(f, Visible(f, files[0].name, files[0].events)));
      ScanDelivers(cfg, f, files[1..]);
    }
  }

  // ---------- events ----------

  // The event ends past the end position; ending there exactly is not past it.
  predicate PastPos(f: ScanFilter, name: string, ev: Event) {
    match f.endPos
    case None => false
    case Some((file, pos)) => file != "" && file == name && ev.head.logPos > pos
  }

  // The event is dated, in seconds, and later than the time range, in nanoseconds.
  predicate Late(f: ScanFilter, ev: Event) {
    match f.timeRange
    case None => false
    case Some((_, end)) => ev.head.ts > 0 && ev.head.ts * 1_000_000_000 > end
  }

  // The scan reads the first n events of a file: none of them is past the end position or late, and the next
  // one, if there is one, is.
  predicate ReadsTo(f: ScanFilter, file: File, n: nat) {
    n <= |file.events|
    && (forall i :: 0 <= i < n ==> !PastPos(f, file.name, file.events[i]) && !Late(f, file.events[i]))
    && (n < |file.events| ==> PastPos(f, file.name, file.events[n]) || Late(f, file.events[n]))
  }

  lemma {:induction false} VisibleExactly(f: ScanFilter, name: string, events: seq<Event>)
    ensures var v := Visible(f, name, events);
      && |v| <= |events| && v == events[..|v|]
      && (forall i :: 0 <= i < |v| ==> !PastPos(f, name, events[i]))
      && (|v| < |events| ==> PastPos(f, name, events[|v|]))
  {
    if events != [] && !PastPos(f, name, events[0]) {
      VisibleExactly(f, name, events[1..]);
      assert Visible(f, name, events) == [events[0]] + Visible(f, name, events[1..]);
      assert forall i :: 0 < i < |events| ==> events[i] == events[1..][i - 1];
    }
  }

  lemma {:induction false} BeforeEndExactly(f: ScanFilter, events: seq<Event>)
    ensures forall i :: 0 <= i < |BeforeEnd(f, events)| ==> !Late(f, events[i])
    ensures |BeforeEnd(f, events)| < |events| ==> Late(f, events[|BeforeEnd(f, events)|])
  {
    if events != [] && !PastEnd(f, events[0]) {
      BeforeEndExactly(f, events[1..]);
      assert forall i :: 0 < i < |events| ==> events[i] == events[1..][i - 1];
    }
  }

  lemma PrefixOfPrefix(events: seq<Event>, m: nat, n: nat)
    requires n <= m <= |events|
    ensures events[..m][..n] == events[..n]
  {
  }

  lemma ReadWithin(f: ScanFilter, file: File, v: seq<Event>, n: nat)
    requires |v| <= |file.events| && v == file.events[..|v|] && n <= |v|
    requires forall i :: 0 <= i < |v| ==> !PastPos(f, file.name, file.events[i])
    requires |v| < |file.events| ==> PastPos(f, file.name, file.events[|v|])
    requires (forall i :: 0 <= i < n ==> !Late(f, v[i])) && (n < |v| ==> Late(f, v[n]))
    ensures ReadsTo(f, file, n)
    ensures n < |v| <==> n < |file.events| && !PastPos(f, file.name, file.events[n])
  {
    assert forall i :: 0 <= i < |v| ==> v[i] == file.events[i];
  }

  lemma ReadExactly(f: ScanFilter, file: File) returns (n: nat)
    ensures ReadsTo(f, file, n)
    ensures BeforeEnd(f, Visible(f, file.name, file.events)) == file.events[..n]
    ensures |BeforeEnd(f, Visible(f, file.name, file.events))| < |Visible(f, file.name, file.events)|
      <==> n < |file.events| && !PastPos(f, file.name, file.events[n])
    ensures n == |file.events| <==>
      |BeforeEnd(f, Visible(f, file.name, file.events))| == |Visible(f, file.name, file.events)| == |file.events|
  {
    var v := Visible(f, file.name, file.events);
    VisibleExactly(f, file.name, file.events);
    BeforeEndExactly(f, v);
    n := |BeforeEnd(f, v)|;
    PrefixOfPrefix(file.events, |v|, n);
    ReadWithin(f, file, v, n);
  }

  lemma OneReading(f: ScanFilter, file: File, m: nat, n: nat)
    requires ReadsTo(f, file, m) && ReadsTo(f, file, n)
    ensures m == n
  {
  }

  // What is read of a file, and whether the scan goes on to the next: not after a late event or a parse error
  // that follows the last event; an end position only closes its own file.
  predicate GoesOn(f: ScanFilter, file: File, n: nat) {
    if n < |file.events| then PastPos(f, file.name, file.events[n]) else file.failure == None
  }

  lemma ScanFirst(cfg: Config, f: ScanFilter, files: seq<File>, n: nat)
    requires files != [] && ReadsTo(f, files[0], n)
    ensures var out := HandleAll(cfg, f, FRESH, files[0].events[..n]).out;
      Scan(cfg, f, files) ==
        if GoesOn(f, files[0], n) then (out + Scan(cfg, f, files[1..]).0, Scan(cfg, f, files[1..]).1)
        else (out, if n < |files[0].events| then None else files[0].failure)
  {
    var m := ReadExactly(f, files[0]);
    OneReading(f, files[0], m, n);
  }

  // The transactions of the files read so far, each up to its own point.
  function Read(cfg: Config, files: seq<File>, f: ScanFilter, points: seq<nat>): seq<Transaction>
    requires |points| <= |files| && forall j :: 0 <= j < |points| ==> points[j] <= |files[j].events|
  {
    if points == [] then []
    else HandleAll(cfg, f, FRESH, files[0].events[..points[0]]).out + Read(cfg, files[1..], f, points[1..])
  }

  /** A scan that goes on after every file but the last of these returns what it read of them, in file order, and
      reports a parse error exactly when it met one; a time range that has passed is no error. */
  lemma {:induction false} ScanExactly(cfg: Config, f: ScanFilter, files: seq<File>, points: seq<nat>)
    requires 0 < |points| <= |files| && forall j :: 0 <= j < |points| ==> points[j] <= |files[j].events| && ReadsTo(f, files[j], points[j])
    requires forall j :: 0 <= j < |points| - 1 ==> GoesOn(f, files[j], points[j])
    requires var last := |points| - 1; |points| == |files| || !GoesOn(f, files[last], points[last])
    ensures var last := |points| - 1;
      Scan(cfg, f, files) == (Read(cfg, files, f, points),
        if points[last] == |files[last].events| then files[last].failure else None)
  {
    ScanFirst(cfg, f, files, points[0]);
    var out := HandleAll(cfg, f, FRESH, files[0].events[..points[0]]).out;
    if |points| > 1 {
      assert forall j :: 0 <= j < |points| - 1 ==> points[1..][j] == points[j + 1] && files[1..][j] == files[j + 1];
      ScanExactly(cfg, f, files[1..], points[1..]);
    } else {
      assert Read(cfg, files[1..], f, points[1..]) == [];
      assert out + [] == out;
      if |files| == 1 { assert Scan(cfg, f, files[1..]) == ([], None); }
    }
  }

  // Every scan is of that form.
  lemma {:induction false} ScanPoints(f: ScanFilter, files: seq<File>) returns (points: seq<nat>)
    requires files != []
    ensures 0 < |points| <= |files| && forall j :: 0 <= j < |points| ==> ReadsTo(f, files[j], points[j])
    ensures forall j :: 0 <= j < |points| - 1 ==> GoesOn(f, files[j], points[j])
    ensures var last := |points| - 1; |points| == |files| || !GoesOn(f, files[last], points[last])
  {
    var n := ReadExactly(f, files[0]);
    if GoesOn(f, files[0], n) && |files| > 1 {
      var rest := ScanPoints(f, files[1..]);
      points := [n] + rest;
      assert forall j :: 0 < j < |points| ==> points[j] == rest[j - 1] && files[j] == files[1..][j - 1];
    } else {
      points := [n];
    }
  }

  // ---------- GTID texts ----------

  lemma {:induction false} HexAppend(a: seq<Byte>, b: seq<Byte>)
    ensures HexText(a + b) == HexText(a) + HexText(b)
    ensures |HexText(a)| == 2 * |a|
  {
    if a == [] {
      assert a + b == b;
    } else {
      HexAppend(a[1..], b);
      assert (a + b)[1..] == a[1..] + b;
    }
  }

  lemma HexParts(sid: seq<Byte>)
    requires |sid| == 16
    ensures HexText(sid) == HexText(sid[0..4]) + HexText(sid[4..6]) + HexText(sid[6..8]) + HexText(sid[8..10]) + HexText(sid[10..16])
  {
    HexAppend(sid[..10], sid[10..16]);
    HexAppend(sid[..8], sid[8..10]);
    HexAppend(sid[..6], sid[6..8]);
    HexAppend(sid[..4], sid[4..6]);
    assert sid[..10] + sid[10..16] == sid && sid[..8] + sid[8..10] == sid[..10];
    assert sid[..6] + sid[6..8] == sid[..8] && sid[..4] + sid[4..6] == sid[..6] && sid[..4] == sid[0..4];
  }

  lemma PartLengths(sid: seq<Byte>)
    requires |sid| == 16
    ensures |HexText(sid[0..4])| == 8 && |HexText(sid[4..6])| == 4 && |HexText(sid[6..8])| == 4
    ensures |HexText(sid[8..10])| == 4 && |HexText(sid[10..16])| == 12
  {
    HexAppend(sid[0..4], []);
    HexAppend(sid[4..6], []);
    HexAppend(sid[6..8], []);
    HexAppend(sid[8..10], []);
    HexAppend(sid[10..16], []);
  }

  lemma Dashed(a: string, b: string, c: string, d: string, e: string, n: string)
    requires |a| == 8 && |b| == 4 && |c| == 4 && |d| == 4 && |e| == 12
    ensures var s := a + "-" + b + "-" + c + "-" + d + "-" + e + ":" + n;
      && s[8] == s[13] == s[18] == s[23] == '-' && s[36] == ':' && s[37..] == n
      && s[..8] == a && s[9..13] == b && s[14..18] == c && s[19..23] == d && s[24..36] == e
  {
  }

  /** A GTID's text is its server id in hexadecimal, grouped as 8-4-4-4-12 digits, a colon and its number; a
      server id that is not 16 bytes has none. */
  lemma GtidTextExact(sid: seq<Byte>, gno: int)
    ensures |sid| != 16 ==> FormatGtid(sid, gno) == ""
    ensures |sid| == 16 ==> var s := FormatGtid(sid, gno);
      && |s| > 36 && s[8] == s[13] == s[18] == s[23] == '-' && s[36] == ':' && s[37..] == IntText(gno)
      && s[..8] + s[9..13] + s[14..18] + s[19..23] + s[24..36] == HexText(sid)
  {
    if |sid| == 16 {
      HexParts(sid);
      PartLengths(sid);
      Dashed(HexText(sid[0..4]), HexText(sid[4..6]), HexText(sid[6..8]), HexText(sid[8..10]), HexText(sid[10..16]), IntText(gno));
    }
  }
}
