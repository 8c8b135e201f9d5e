/** The preview stream (internal/scan/scan.go): a capped run over scanned transactions with one shared cache. */
module Scan {
  import opened Base
  import opened Values
  import opened Generator
  import opened SchemaCache

  datatype Mode = MetaOnly | WithSQL | SelectedSQL

  datatype Meta = Meta(
    txId: string, gtid: string, xid: nat, commitTime: int, schema: string,
    tables: seq<(string, string)>, rowCount: nat, truncated: bool)

  datatype Preview = Preview(meta: Meta, sql: seq<Statement>)

  const DEFAULT_MAX_PREVIEW := 500

  // The tables of the rows in order of first appearance.
  function TablesOf(rows: seq<RowChange>): seq<(string, string)> {
    if rows == [] then []
    else
      var last := rows[|rows| - 1];
      var ts := TablesOf(rows[..|rows| - 1]);
      if (last.schema, last.table) in ts then ts else ts + [(last.schema, last.table)]
  }

  /** The preview lists each touched table exactly once. */
  lemma {:induction false} TablesOfExact(rows: seq<RowChange>)
    ensures forall t :: t in TablesOf(rows) <==> exists rc :: rc in rows && t == (rc.schema, rc.table)
    ensures Distinct(TablesOf(rows))
  {
    if rows != [] {
      TablesOfExact(rows[..|rows| - 1]);
      assert forall rc :: rc in rows <==> rc in rows[..|rows| - 1] || rc == rows[|rows| - 1];
    }
  }

  function MetaOf(tx: Transaction): Meta {
    Meta(tx.txId, tx.gtid, tx.xid, tx.commitTime, tx.schema, TablesOf(tx.statements), |tx.statements|, tx.truncated)
  }

  // The rows whose tables are looked up for tx; a truncated transaction is not looked at.
  function NeededRows(tx: Transaction): seq<RowChange> {
    if tx.truncated then [] else tx.statements
  }

  // The statements for tx, given a cache that already covers it.
  function SqlFor(tx: Transaction, cache: Cache): seq<Statement> {
    if tx.truncated then [Statement("", tx.txId, 0, [TransactionTruncated])]
    else if tx.txId == "" then [Statement("", tx.txId, 0, [GenerateFailed])]
    else UndoPlan(tx, cache, 0)
  }

  function SharedCache(txs: seq<Transaction>, fetch: Fetcher): Cache {
    if txs == [] then map[] else Fill(SharedCache(txs[..|txs| - 1], fetch), NeededRows(txs[|txs| - 1]), fetch)
  }

  // What the stream shows for a transaction on its own, with nothing cached beforehand.
  function FreshPreview(tx: Transaction, mode: Mode, fetch: Fetcher): Preview {
    Preview(MetaOf(tx), if mode.MetaOnly? then [] else SqlFor(tx, Fill(map[], NeededRows(tx), fetch)))
  }

  function SharedPreview(txs: seq<Transaction>, k: nat, mode: Mode, fetch: Fetcher): Preview
    requires k < |txs|
  {
    Preview(MetaOf(txs[k]), if mode.MetaOnly? then [] else SqlFor(txs[k], SharedCache(txs[..k + 1], fetch)))
  }

  class Scanner {
    const fetch: Fetcher
    var cache: Cache

    constructor (fetch: Fetcher)
      ensures this.fetch == fetch && cache == map[]
    {
      this.fetch := fetch;
      cache := map[];
    }

    method GenerateSQL(tx: Transaction) returns (stmts: seq<Statement>)
      modifies this
      ensures cache == Fill(old(cache), NeededRows(tx), fetch)
      ensures stmts == SqlFor(tx, cache)
      ensures tx.truncated ==> stmts == [Statement("", tx.txId, 0, [TransactionTruncated])] && cache == old(cache)
      ensures !tx.truncated ==> cache == Fill(old(cache), tx.statements, fetch)
      ensures !tx.truncated && tx.txId != "" ==> stmts == UndoPlan(tx, cache, 0)
    {
      if tx.truncated {
        return [Statement("", tx.txId, 0, [TransactionTruncated])];
      }
      cache := FillLoop(cache, tx.statements, fetch);
      var r := Generate(tx, cache, 0);
      match r {
        case Ok(out) => return out;
        case Err(_) => return [Statement("", tx.txId, 0, [GenerateFailed])];
      }
    }

    // The preview of one transaction; the shared cache grows only when SQL is wanted.
    method PreviewOne(txs: seq<Transaction>, k: nat, mode: Mode) returns (p: Preview)
      requires k < |txs|
      requires !mode.MetaOnly? ==> cache == SharedCache(txs[..k], fetch)
      modifies this
      ensures p == SharedPreview(txs, k, mode, fetch)
      ensures !mode.MetaOnly? ==> cache == SharedCache(txs[..k + 1], fetch)
    {
      var tx := txs[k];
      assert txs[..k + 1][..k] == txs[..k];
      var tables := CollectTables(tx);
      var meta := Meta(tx.txId, tx.gtid, tx.xid, tx.commitTime, tx.schema, tables, |tx.statements|, tx.truncated);
      var sql: seq<Statement> := [];
      if mode != MetaOnly {
        sql := GenerateSQL(tx);
      }
      p := Preview(meta, sql);
    }

    // The transactions come from the scanner in order; failure says whether it ended in an error.
    method Stream(txs: seq<Transaction>, failure: Option<string>, mode: Mode, maxPreview: int)
      returns (out: seq<Preview>, err: Option<string>)
      requires cache == map[]
      modifies this
      ensures var cap := if maxPreview <= 0 then 500 else maxPreview;
        |out| == (if |txs| < cap then |txs| else cap) && err == if |txs| < cap then failure else None
      ensures forall k :: 0 <= k < |out| ==> out[k] == SharedPreview(txs, k, mode, fetch)
    {
      var cap := maxPreview;
      if cap <= 0 {
        cap := DEFAULT_MAX_PREVIEW;
      }
      out, err := [], None;
      var sent := 0;
      while sent < |txs|
        invariant sent == |out| <= |txs| && sent < cap
        invariant !mode.MetaOnly? ==> cache == SharedCache(txs[..sent], fetch)
        invariant forall k :: 0 <= k < sent ==> out[k] == SharedPreview(txs, k, mode, fetch)
        decreases |txs| - sent
      {
        var preview := PreviewOne(txs, sent, mode);
        out := out + [preview];
        sent := sent + 1;
        if sent >= cap {
          return;
        }
      }
      err := failure;
    }

    method CollectTables(tx: Transaction) returns (tables: seq<(string, string)>)
      ensures tables == TablesOf(tx.statements)
    {
      tables := [];
      for i := 0 to |tx.statements|
        invariant tables == TablesOf(tx.statements[..i])
      {
        assert tx.statements[..i + 1][..i] == tx.statements[..i];
        var ref := (tx.statements[i].schema, tx.statements[i].table);
        if ref !in tables {
          tables := tables + [ref];
        }
      }
      assert tx.statements[..|tx.statements|] == tx.statements;
    }
  }

  // ---------- what a preview shows ----------

  /** A preview shows the transaction's own fields, its tables, its number of rows and whether it was cut; and,
      where SQL is wanted, its undo plan with freshly fetched definitions, or one warning if it was cut or has
      no id. */
  lemma PreviewExactly(tx: Transaction, mode: Mode, fetch: Fetcher)
    ensures var m := FreshPreview(tx, mode, fetch).meta;
      && m.txId == tx.txId && m.gtid == tx.gtid && m.xid == tx.xid && m.commitTime == tx.commitTime && m.schema == tx.schema
      && m.rowCount == |tx.statements| && m.truncated == tx.truncated
      && (forall t :: t in m.tables <==> exists rc :: rc in tx.statements && t == (rc.schema, rc.table)) && Distinct(m.tables)
    ensures FreshPreview(tx, mode, fetch).sql ==
      if mode == MetaOnly then []
      else if tx.truncated then [Statement("", tx.txId, 0, [TransactionTruncated])]
      else if tx.txId == "" then [Statement("", tx.txId, 0, [GenerateFailed])]
      else UndoPlan(tx, Fill(map[], tx.statements, fetch), 0)
  {
    TablesOfExact(tx.statements);
  }

  // ---------- the shared cache is invisible ----------

  lemma InAll(txs: seq<Transaction>, k: nat, rc: RowChange)
    requires k < |txs| && rc in txs[k].statements
    ensures rc in Flatten(Map(Rows, txs))
  {
    if k == 0 {
    } else {
      assert Map(Rows, txs)[1..] == Map(Rows, txs[1..]);
      InAll(txs[1..], k - 1, rc);
    }
  }

  lemma {:induction false} SharedGenuine(txs: seq<Transaction>, k: nat, fetch: Fetcher)
    requires k <= |txs| && DistinctKeys(Flatten(Map(Rows, txs)))
    ensures Genuine(SharedCache(txs[..k], fetch), Flatten(Map(Rows, txs)), fetch)
  {
    if k > 0 {
      SharedGenuine(txs, k - 1, fetch);
      assert txs[..k][..k - 1] == txs[..k - 1];
      var universe := Flatten(Map(Rows, txs));
      forall rc | rc in NeededRows(txs[k - 1]) ensures rc in universe {
        InAll(txs, k - 1, rc);
      }
      FillServes(SharedCache(txs[..k - 1], fetch), NeededRows(txs[k - 1]), universe, fetch);
    }
  }

  /** With distinct dotted keys, every preview is the one a fresh fetch would have given: what earlier
      transactions left in the cache never shows. */
  lemma SharedIsFresh(txs: seq<Transaction>, k: nat, mode: Mode, fetch: Fetcher)
    requires k < |txs| && DistinctKeys(Flatten(Map(Rows, txs)))
    ensures SharedPreview(txs, k, mode, fetch) == FreshPreview(txs[k], mode, fetch)
  {
    var tx := txs[k];
    if !tx.truncated && tx.txId != "" {
      var universe := Flatten(Map(Rows, txs));
      SharedGenuine(txs, k, fetch);
      assert txs[..k + 1][..k] == txs[..k];
      forall rc | rc in tx.statements ensures rc in universe {
        InAll(txs, k, rc);
      }
      FillServes(SharedCache(txs[..k], fetch), tx.statements, universe, fetch);
      FillServes(map[], tx.statements, universe, fetch);
      UndoFromLooksUp(tx.statements, 0, tx.txId, SharedCache(txs[..k + 1], fetch), Fill(map[], tx.statements, fetch), Limit(0));
    }
  }
}
