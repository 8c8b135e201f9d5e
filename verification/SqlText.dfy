/**
 The three undo statement forms: their meaning as data, and a reader for their text. The reader is
 written from the grammar of the forms and the lexical rules in SqlLexis, not from the generator.
 */
module SqlText {
  import opened Base
  import opened SqlLexis

  datatype Condition = Equals(col: string, value: Literal) | IsNull(col: string)

  datatype Sql =
    | InsertRow(schema: string, table: string, cols: seq<string>, values: seq<Literal>)
    | DeleteRows(schema: string, table: string, where: seq<Condition>)
    | UpdateRows(schema: string, table: string, assignments: seq<(string, Literal)>, where: seq<Condition>)

  function Join(parts: seq<string>, sep: string): string {
    if parts == [] then ""
    else if |parts| == 1 then parts[0]
    else parts[0] + sep + Join(parts[1..], sep)
  }

  // ---------- reading ----------

  function Expect(token: string, s: string): Option<string> {
    if token <= s then Some(s[|token|..]) else None
  }

  // A non-empty list of items with sep between neighbours.
  function ReadList<T>(item: string -> Parsed<T>, sep: string, s: string): Parsed<seq<T>>
    decreases |s|
  {
    match item(s)
    case None => None
    case Some((x, rest)) =>
      if sep <= rest && |rest| - |sep| < |s| then
        match ReadList(item, sep, rest[|sep|..])
        case None => None
        case Some((xs, r)) => Some(([x] + xs, r))
      else Some(([x], rest))
  }

  function ReadCondition(s: string): Parsed<Condition> {
    match ReadIdent(s)
    case None => None
    case Some((col, r)) =>
      if " IS NULL" <= r then Some((IsNull(col), r[8..]))
      else if " = " <= r then
        match ReadLiteral(r[3..])
        case None => None
        case Some((v, r')) => Some((Equals(col, v), r'))
      else None
  }

  function ReadAssignment(s: string): Parsed<(string, Literal)> {
    match ReadIdent(s)
    case None => None
    case Some((col, r)) =>
      if " = " <= r then
        match ReadLiteral(r[3..])
        case None => None
        case Some((v, r')) => Some(((col, v), r'))
      else None
  }

  function ReadTableName(s: string): Parsed<(string, string)> {
    match ReadIdent(s)
    case None => None
    case Some((schema, r)) =>
      if r == "" || r[0] != '.' then None else
      match ReadIdent(r[1..])
      case None => None
      case Some((table, r')) => Some(((schema, table), r'))
  }

  function ReadValueList(s: string): Parsed<seq<Literal>> {
    if s != "" && s[0] == ')' then Some(([], s)) else ReadList(ReadLiteral, ", ", s)
  }

  function ReadWhere(s: string): Option<seq<Condition>> {
    match Expect(" WHERE ", s)
    case None => None
    case Some(r) =>
      match ReadList(ReadCondition, " AND ", r)
      case Some((conds, "")) => Some(conds)
      case _ => None
  }

  function ReadInsert(s: string): Option<Sql> {
    match ReadTableName(s)
    case None => None
    case Some(((schema, table), r)) =>
      match Expect(" (", r)
      case None => None
      case Some(r1) =>
        match ReadList(ReadIdent, ", ", r1)
        case None => None
        case Some((cols, r2)) =>
          match Expect(") VALUES (", r2)
          case None => None
          case Some(r3) =>
            match ReadValueList(r3)
            case Some((values, ")")) => Some(InsertRow(schema, table, cols, values))
            case _ => None
  }

  function ReadDelete(s: string): Option<Sql> {
    match ReadTableName(s)
    case None => None
    case Some(((schema, table), r)) =>
      match ReadWhere(r)
      case None => None
      case Some(conds) => Some(DeleteRows(schema, table, conds))
  }

  function ReadUpdate(s: string): Option<Sql> {
    match ReadTableName(s)
    case None => None
    case Some(((schema, table), r)) =>
      match Expect(" SET ", r)
      case None => None
      case Some(r1) =>
        match ReadList(ReadAssignment, ", ", r1)
        case None => None
        case Some((sets, r2)) =>
          match ReadWhere(r2)
          case None => None
          case Some(conds) => Some(UpdateRows(schema, table, sets, conds))
  }

  function ReadSql(s: string): Option<Sql> {
    if "INSERT INTO " <= s then ReadInsert(s[12..])
    else if "DELETE FROM " <= s then ReadDelete(s[12..])
    else if "UPDATE " <= s then ReadUpdate(s[7..])
    else None
  }

  // ---------- round trips of the parts ----------

  lemma Consume(token: string, rest: string)
    ensures Expect(token, token + rest) == Some(rest)
  {
  }

  /** A joined list reads back item by item, whenever each item reads back in front of a separator
      and in front of what follows the list. */
  lemma {:induction false} ListRoundTrip<U, T>(
      item: string -> Parsed<T>, text: U -> string, meaning: U -> T, sep: string, us: seq<U>, tail: string)
    requires us != [] && sep != "" && !(sep <= tail)
    requires forall u, r :: u in us && (sep <= r || r == tail) ==> item(text(u) + r) == Some((meaning(u), r))
    ensures ReadList(item, sep, Join(Map(text, us), sep) + tail) == Some((Map(meaning, us), tail))
  {
    var parts := Map(text, us);
    var s := Join(parts, sep) + tail;
    assert us[0] in us;
    if |us| == 1 {
      assert s == text(us[0]) + tail;
      assert Map(meaning, us) == [meaning(us[0])];
    } else {
      var more := Join(parts[1..], sep) + tail;
      assert s == text(us[0]) + (sep + more);
      assert parts[1..] == Map(text, us[1..]);
      assert forall u :: u in us[1..] ==> u in us;
      ListRoundTrip(item, text, meaning, sep, us[1..], tail);
      assert (sep + more)[|sep|..] == more;
      assert Map(meaning, us) == [meaning(us[0])] + Map(meaning, us[1..]);
    }
  }

  lemma TableNameRoundTrip(schema: string, table: string, rest: string)
    requires rest == "" || rest[0] != '`'
    ensures ReadTableName(QuoteIdent(schema) + "." + QuoteIdent(table) + rest) == Some(((schema, table), rest))
  {
    var more := "." + QuoteIdent(table) + rest;
    assert QuoteIdent(schema) + "." + QuoteIdent(table) + rest == QuoteIdent(schema) + more;
    IdentRoundTrip(schema, more);
    assert more[1..] == QuoteIdent(table) + rest;
    IdentRoundTrip(table, rest);
  }
}
