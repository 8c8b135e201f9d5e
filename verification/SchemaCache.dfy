/**
 The table definitions a run of transactions needs, fetched once per dotted key
 (internal/scan/scan.go generateSQL; cmd/agent/flashback.go).
 */
module SchemaCache {
  import opened Base
  import opened Values
  import opened Generator

  type Cache = map<string, TableSchema>
  type Fetcher = (string, string) -> Option<TableSchema>

  function KeyOf(rc: RowChange): string {
    DottedKey(rc.schema, rc.table)
  }

  function Fetched(fetch: Fetcher, rc: RowChange): Option<TableSchema> {
    fetch(rc.schema, rc.table)
  }

  // Looks each row's table up, fetching what is missing; a failed fetch leaves no entry.
  function FillOne(cache: Cache, rc: RowChange, fetch: Fetcher): Cache {
    if KeyOf(rc) in cache then cache
    else match Fetched(fetch, rc)
      case None => cache
      case Some(sch) => cache[KeyOf(rc) := sch]
  }

  function Fill(cache: Cache, rows: seq<RowChange>, fetch: Fetcher): Cache {
    if rows == [] then cache
    else FillOne(Fill(cache, rows[..|rows| - 1], fetch), rows[|rows| - 1], fetch)
  }

  method FillLoop(cache: Cache, rows: seq<RowChange>, fetch: Fetcher) returns (r: Cache)
    ensures r == Fill(cache, rows, fetch)
  {
    r := cache;
    for i := 0 to |rows|
      invariant r == Fill(cache, rows[..i], fetch)
    {
      assert rows[..i + 1][..i] == rows[..i];
      var rc := rows[i];
      var key := KeyOf(rc);
      if key in r {
        continue;
      }
      var sch := fetch(rc.schema, rc.table);
      if sch.None? {
        continue;
      }
      r := r[key := sch.value];
    }
    assert rows[..|rows|] == rows;
  }

  function Lookup(cache: Cache, rc: RowChange): Option<TableSchema> {
    if KeyOf(rc) in cache then Some(cache[KeyOf(rc)]) else None
  }

  // Different tables among the rows have different dotted keys.
  predicate DistinctKeys(rows: seq<RowChange>) {
    forall i, j :: 0 <= i < |rows| && 0 <= j < |rows| && KeyOf(rows[i]) == KeyOf(rows[j]) ==>
      rows[i].schema == rows[j].schema && rows[i].table == rows[j].table
  }

  // Every entry was fetched for some row of the universe.
  ghost predicate Genuine(cache: Cache, universe: seq<RowChange>, fetch: Fetcher) {
    forall key :: key in cache ==>
      exists rc :: rc in universe && KeyOf(rc) == key && Fetched(fetch, rc) == Some(cache[key])
  }

  lemma {:induction false} FillServes(cache: Cache, rows: seq<RowChange>, universe: seq<RowChange>, fetch: Fetcher)
    requires Genuine(cache, universe, fetch) && DistinctKeys(universe)
    requires forall rc :: rc in rows ==> rc in universe
    ensures Genuine(Fill(cache, rows, fetch), universe, fetch)
    ensures forall rc :: rc in rows ==> Lookup(Fill(cache, rows, fetch), rc) == Fetched(fetch, rc)
  {
    if rows != [] {
      var init, last := rows[..|rows| - 1], rows[|rows| - 1];
      FillServes(cache, init, universe, fetch);
      assert last in rows;
      var c, c' := Fill(cache, init, fetch), Fill(cache, rows, fetch);
      forall key | key in c' ensures exists rc :: rc in universe && KeyOf(rc) == key && Fetched(fetch, rc) == Some(c'[key]) {
        if key in c {
          assert c'[key] == c[key];
        } else {
          assert KeyOf(last) == key && Fetched(fetch, last) == Some(c'[key]);
        }
      }
      ServedFor(c', last, universe, fetch);
      forall rc | rc in rows ensures Lookup(c', rc) == Fetched(fetch, rc) {
        if rc != last {
          assert rc in init;
          ServedFor(c', rc, universe, fetch);
        }
      }
    }
  }

  // A genuine entry under a row's key is that row's own definition.
  lemma ServedFor(cache: Cache, rc: RowChange, universe: seq<RowChange>, fetch: Fetcher)
    requires Genuine(cache, universe, fetch) && DistinctKeys(universe) && rc in universe
    ensures KeyOf(rc) in cache ==> Lookup(cache, rc) == Fetched(fetch, rc)
  {
    if KeyOf(rc) in cache {
      var rc' :| rc' in universe && KeyOf(rc') == KeyOf(rc) && Fetched(fetch, rc') == Some(cache[KeyOf(rc)]);
      var i :| 0 <= i < |universe| && universe[i] == rc;
      var j :| 0 <= j < |universe| && universe[j] == rc';
    }
  }

  /** Whatever the server answers, every row finds its own table's definition in the cache exactly when
      different tables have different dotted keys. */
  lemma CacheFaithfulIff(rows: seq<RowChange>)
    ensures (forall fetch: Fetcher, rc :: rc in rows ==> Lookup(Fill(map[], rows, fetch), rc) == Fetched(fetch, rc))
      <==> DistinctKeys(rows)
  {
    if DistinctKeys(rows) {
      forall fetch: Fetcher, rc | rc in rows ensures Lookup(Fill(map[], rows, fetch), rc) == Fetched(fetch, rc) {
        FillServes(map[], rows, rows, fetch);
      }
    } else {
      var i, j :| 0 <= i < |rows| && 0 <= j < |rows| && KeyOf(rows[i]) == KeyOf(rows[j])
        && !(rows[i].schema == rows[j].schema && rows[i].table == rows[j].table);
      var fetch: Fetcher := (schema, table) =>
        Some(TableSchema(if schema == rows[i].schema && table == rows[i].table then ["a"] else ["b"], []));
      var cache := Fill(map[], rows, fetch);
      assert Lookup(cache, rows[i]) == Lookup(cache, rows[j]);
      assert Fetched(fetch, rows[i]) != Fetched(fetch, rows[j]);
      assert rows[i] in rows && rows[j] in rows;
    }
  }

  /** Schema a.b with table c, and schema a with table b.c, share a dotted key: after a row of the first, a row
      of the second is given the first one's definition. */
  lemma DottedKeysCollide(first: RowChange, second: RowChange, fetch: Fetcher)
    requires first.schema == "a.b" && first.table == "c" && second.schema == "a" && second.table == "b.c"
    requires Fetched(fetch, first).Some?
    ensures KeyOf(first) == KeyOf(second) && !DistinctKeys([first, second])
    ensures Lookup(Fill(map[], [first, second], fetch), second) == Fetched(fetch, first)
  {
    assert KeyOf(first) == "a.b.c" == KeyOf(second);
    var rows := [first, second];
    assert rows[0] == first && rows[1] == second;
    assert rows[..|rows| - 1] == [first] && [first][..0] == [];
    assert Fill(map[], [first], fetch) == FillOne(map[], first, fetch);
    assert Fill(map[], rows, fetch) == FillOne(Fill(map[], [first], fetch), second, fetch);
  }

  // ---------- the generator only sees the rows' own entries ----------

  lemma {:induction false} UndoFromLooksUp(rows: seq<RowChange>, i: nat, txId: string, c1: Cache, c2: Cache, max: int)
    requires i <= |rows|
    requires forall rc :: rc in rows ==> Lookup(c1, rc) == Lookup(c2, rc)
    ensures UndoFrom(rows, i, txId, c1, max) == UndoFrom(rows, i, txId, c2, max)
    decreases |rows| - i
  {
    if i < |rows| {
      UndoFromLooksUp(rows, i + 1, txId, c1, c2, max);
      assert rows[i] in rows;
      assert Lookup(c1, rows[i]) == Lookup(c2, rows[i]);
    }
  }
}
