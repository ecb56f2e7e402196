/**
 * The relational store as the importer sees it through pyodbc: the statements
 * it sends (with the exact SQL text the source formats for each), a server
 * whose answers and verdicts are an oracle, a connection that records every
 * statement in order, and the batch insert with its row-by-row fallback that
 * `importer.py` and `improved_importing.py` share.
 */
module Sql {
  import opened Strings
  import opened Frames

  /** One row of the catalog query over `sys.columns` joined with `sys.types`. */
  datatype CatalogRow = CatalogRow(columnName: string, dataType: string, maxLength: int, precision: nat, scale: nat)

  /** One `[name] TYPE` entry of a CREATE TABLE. */
  datatype ColumnDef = ColumnDef(name: string, sqlType: string)

  /** What the importer sends over a connection, in the order it sends it. */
  datatype Op =
    | ObjectIdQuery(table: string)                      // `SELECT OBJECT_ID(N'<table>', N'U')`
    | CatalogQuery(table: string)                       // catalog query, table bound as a parameter
    | CreateTable(table: string, defs: seq<ColumnDef>)
    | DropTable(table: string)
    | DropIfExists(table: string)                       // `IF OBJECT_ID(...) IS NOT NULL DROP TABLE ...`
    | CreateIfAbsent(table: string, defs: seq<ColumnDef>) // `IF OBJECT_ID(...) IS NULL BEGIN CREATE ... END`
    | InsertBatch(table: string, columns: seq<string>, rows: seq<Row>)  // one `executemany`
    | InsertRow(table: string, columns: seq<string>, row: Row)          // one `execute` of the same INSERT
    | Commit
    | Close
  {
    predicate IsQuery() {
      ObjectIdQuery? || CatalogQuery?
    }

    /** Statements that change the database or make changes durable. */
    predicate IsWrite() {
      !IsQuery() && !Close?
    }

    predicate IsStatement() {
      !Commit? && !Close?
    }
  }

  /**
   * The database behind a connection string. `hasTable` and `catalog` answer
   * from one snapshot of the catalog; `accepts` is the server's verdict on a
   * statement given every statement it received before on the connection.
   */
  datatype Server = Server(
    reachable: bool,
    hasTable: string -> bool,
    catalog: string -> seq<CatalogRow>,
    accepts: (seq<Op>, Op) -> bool)

  // ---------------------------------------------------------------- SQL text

  /** `[name]` followed by `tail`: a column of an INSERT list (empty tail) or a CREATE definition. */
  function Item(name: string, tail: string): string {
    "[" + name + "]" + tail
  }

  function ItemsText(sep: string, items: seq<(string, string)>): string {
    Join(sep, seq(|items|, i requires 0 <= i < |items| => Item(items[i].0, items[i].1)))
  }

  function DefItems(defs: seq<ColumnDef>): seq<(string, string)> {
    seq(|defs|, i requires 0 <= i < |defs| => (defs[i].name, " " + defs[i].sqlType))
  }

  /** `f"CREATE TABLE [{t}] (\n    {column_defs}\n);"` with the definitions joined by `",\n    "`. */
  function CreateText(t: string, defs: seq<ColumnDef>): string {
    "CREATE TABLE [" + t + "] (\n    " + ItemsText(",\n    ", DefItems(defs)) + "\n);"
  }

  function ColumnItems(columns: seq<string>): seq<(string, string)> {
    seq(|columns|, i requires 0 <= i < |columns| => (columns[i], ""))
  }

  /** `", ".join(f"[{col}]" for col in columns)` */
  function ColumnList(columns: seq<string>): string {
    ItemsText(", ", ColumnItems(columns))
  }

  /** `", ".join("?" for _ in columns)` */
  function Placeholders(n: nat): string {
    Join(", ", seq(n, _ => "?"))
  }

  function InsertText(t: string, columns: seq<string>): string {
    "INSERT INTO [" + t + "] (" + ColumnList(columns) + ") VALUES (" + Placeholders(|columns|) + ")"
  }

  /** The text the source hands to `cursor.execute` / `executemany` for a statement. */
  function Statement(op: Op): string
    requires op.IsStatement()
  {
    match op
    case ObjectIdQuery(t) => "SELECT OBJECT_ID(N'" + t + "', N'U')"
    case CatalogQuery(_) =>
      "\n            SELECT c.name AS column_name, "
      + "\n                   t.name AS data_type,"
      + "\n                   c.max_length,"
      + "\n                   c.precision,"
      + "\n                   c.scale"
      + "\n            FROM sys.columns c"
      + "\n            JOIN sys.types t ON c.user_type_id = t.user_type_id"
      + "\n            WHERE c.object_id = OBJECT_ID(?)"
      + "\n        "
    case CreateTable(t, defs) => CreateText(t, defs)
    case DropTable(t) => "DROP TABLE [" + t + "]"
    case DropIfExists(t) => "IF OBJECT_ID(N'" + t + "', N'U') IS NOT NULL DROP TABLE [" + t + "]"
    case CreateIfAbsent(t, defs) => "IF OBJECT_ID('" + t + "', 'U') IS NULL BEGIN \n" + CreateText(t, defs) + "\n END"
    case InsertBatch(t, columns, _) => InsertText(t, columns)
    case InsertRow(t, columns, _) => InsertText(t, columns)
  }

  // ------------------------------------------------- reading the text back

  /**
   * Reads one `[name]tail` item off the front of `s`, where the tail runs up
   * to the next comma; returns the item and what follows it.
   */
  function ParseItem(s: string): (r: Option<((string, string), string)>)
    ensures r.Some? ==> |r.value.1| < |s|
  {
    if s == [] || s[0] != '[' then None
    else
      var close := 1 + IndexOf(s[1..], ']');
      if close == |s| then None
      else
        var after := s[close + 1..];
        var t := IndexOf(after, ',');
        Some(((s[1..close], after[..t]), after[t..]))
  }

  /**
   * Reads a `sep`-separated list of items. Used to show that the rendered
   * statements say exactly which columns they name.
   */
  function ParseItems(s: string, sep: string): Option<seq<(string, string)>>
    decreases |s|
  {
    if s == [] then Some([])
    else
      match ParseItem(s)
      case None => None
      case Some((item, rest)) =>
        if rest == [] then Some([item])
        else if StartsWith(rest, sep) && |rest| > |sep| && |sep| > 0 then
          match ParseItems(rest[|sep|..], sep)
          case Some(more) => Some([item] + more)
          case None => None
        else None
  }

  lemma IndexOfFirst(s: string, c: char, k: nat)
    requires k <= |s| && c !in s[..k] && (k < |s| ==> s[k] == c)
    ensures IndexOf(s, c) == k
  {
    var j := IndexOf(s, c);
    assert forall m :: 0 <= m < k ==> s[..k][m] == s[m];
    assert forall m :: 0 <= m < j ==> s[..j][m] == s[m];
  }

  predicate Separable(items: seq<(string, string)>) {
    forall i :: 0 <= i < |items| ==> ']' !in items[i].0 && ',' !in items[i].1
  }

  /** The first item of a rendered list reads back, leaving the rest untouched. */
  lemma ParseItemOf(name: string, tail: string, r: string)
    requires ']' !in name && ',' !in tail && (r == [] || r[0] == ',')
    ensures ParseItem(Item(name, tail) + r) == Some(((name, tail), r))
  {
    var s := Item(name, tail) + r;
    var s1 := name + ("]" + (tail + r));
    assert s == "[" + s1;
    assert s[1..] == s1;
    IndexOfFirst(s1, ']', |name|);
    var after := tail + r;
    assert s[1 + |name| + 1..] == after;
    IndexOfFirst(after, ',', |tail|);
    assert s[1..1 + |name|] == name;
  }

  /** A list of items whose names hold no `]` and whose tails hold no `,` reads back unchanged. */
  lemma {:induction false} ParseItemsText(items: seq<(string, string)>, sep: string)
    requires |sep| > 0 && sep[0] == ','
    requires Separable(items)
    ensures ParseItems(ItemsText(sep, items), sep) == Some(items)
    decreases |items|
  {
    if items != [] {
      ItemsTextCons(sep, items);
      var s := ItemsText(sep, items);
      if |items| == 1 {
        ParseItemOf(items[0].0, items[0].1, "");
        ParseItemsLast(s, sep, items);
      } else {
        var rest := ItemsText(sep, items[1..]);
        ParseItemsText(items[1..], sep);
        ParseItemOf(items[0].0, items[0].1, sep + rest);
        ParseItemsCons(s, sep, items, rest);
      }
    }
  }

  lemma ParseItemsLast(s: string, sep: string, items: seq<(string, string)>)
    requires |items| == 1 && ParseItem(s + "") == Some((items[0], ""))
    ensures ParseItems(s, sep) == Some(items)
  {
    assert s + "" == s;
    assert [items[0]] == items;
  }

  lemma ParseItemsCons(s: string, sep: string, items: seq<(string, string)>, rest: string)
    requires |sep| > 0 && rest != [] && items != []
    requires ParseItem(s) == Some((items[0], sep + rest))
    requires ParseItems(rest, sep) == Some(items[1..])
    ensures ParseItems(s, sep) == Some(items)
  {
    assert (sep + rest)[|sep|..] == rest;
    assert [items[0]] + items[1..] == items;
  }

  /** How an item list starts: the first item, then the separator and the rest. */
  lemma ItemsTextCons(sep: string, items: seq<(string, string)>)
    requires items != [] && Separable(items)
    ensures |items| == 1 ==> ItemsText(sep, items) == Item(items[0].0, items[0].1)
    ensures |items| > 1 ==> ItemsText(sep, items) == Item(items[0].0, items[0].1) + (sep + ItemsText(sep, items[1..]))
    ensures |items| > 1 ==> ItemsText(sep, items[1..]) != [] && ItemsText(sep, items[1..])[0] == '['
  {
    var xs := seq(|items|, i requires 0 <= i < |items| => Item(items[i].0, items[i].1));
    if |items| > 1 {
      var tl := items[1..];
      var ys := seq(|tl|, i requires 0 <= i < |tl| => Item(tl[i].0, tl[i].1));
      assert xs[1..] == ys;
      if |tl| > 1 {
        assert ItemsText(sep, tl) == ys[0] + sep + Join(sep, ys[1..]);
      }
      assert ItemsText(sep, items) == xs[0] + sep + Join(sep, ys);
    }
  }

  /** Reads a CREATE TABLE statement back into its table name and column definitions. */
  function ParseCreate(sql: string): Option<(string, seq<ColumnDef>)> {
    var head := "CREATE TABLE [";
    var open := "] (\n    ";
    var foot := "\n);";
    if !StartsWith(sql, head) then None
    else
      var rest := sql[|head|..];
      var close := IndexOf(rest, ']');
      var after := rest[close..];
      if !StartsWith(after, open) || |after| < |open| + |foot| || after[|after| - |foot|..] != foot then None
      else
        match ParseItems(after[|open|..|after| - |foot|], ",\n    ")
        case None => None
        case Some(items) =>
          if forall i :: 0 <= i < |items| ==> StartsWith(items[i].1, " ") then
            Some((rest[..close], seq(|items|, i requires 0 <= i < |items| && StartsWith(items[i].1, " ") => ColumnDef(items[i].0, items[i].1[1..]))))
          else None
  }

  /**
   * The CREATE TABLE text names exactly the table and exactly the column
   * definitions it was built from, in order, as long as no name holds `]`
   * and no type holds `,`.
   */
  lemma CreateTextRoundTrip(t: string, defs: seq<ColumnDef>)
    requires ']' !in t
    requires forall i :: 0 <= i < |defs| ==> ']' !in defs[i].name && ',' !in defs[i].sqlType
    ensures ParseCreate(CreateText(t, defs)) == Some((t, defs))
  {
    var items := DefItems(defs);
    var body := ItemsText(",\n    ", items);
    ParseItemsText(items, ",\n    ");
    CreateTextParts(t, body);
    DefItemsBack(defs);
    ParseCreateOf(t, body, items);
  }

  /** Every definition item's tail is a space and the type, so the items give the definitions back. */
  lemma DefItemsBack(defs: seq<ColumnDef>)
    ensures var items := DefItems(defs);
            && (forall i :: 0 <= i < |items| ==> StartsWith(items[i].1, " "))
            && seq(|items|, i requires 0 <= i < |items| && StartsWith(items[i].1, " ") => ColumnDef(items[i].0, items[i].1[1..])) == defs
  {
  }

  /** The parser on a text cut as `CreateTextParts` describes, whose body parses into items with space-led tails. */
  lemma ParseCreateOf(t: string, body: string, items: seq<(string, string)>)
    requires ']' !in t
    requires ParseItems(body, ",\n    ") == Some(items)
    requires forall i :: 0 <= i < |items| ==> StartsWith(items[i].1, " ")
    ensures ParseCreate("CREATE TABLE [" + t + "] (\n    " + body + "\n);")
            == Some((t, seq(|items|, i requires 0 <= i < |items| && StartsWith(items[i].1, " ") => ColumnDef(items[i].0, items[i].1[1..]))))
  {
    CreateTextParts(t, body);
  }

  /** Where the parser cuts a CREATE TABLE text: after the head, at the first `]`, and around the body. */
  lemma CreateTextParts(t: string, body: string)
    requires ']' !in t
    ensures var sql := "CREATE TABLE [" + t + "] (\n    " + body + "\n);";
            var head := "CREATE TABLE [";
            var open := "] (\n    ";
            var foot := "\n);";
            var rest := sql[|head|..];
            var after := rest[IndexOf(rest, ']')..];
            && StartsWith(sql, head)
            && IndexOf(rest, ']') == |t| && rest[..|t|] == t
            && StartsWith(after, open) && |after| >= |open| + |foot| && after[|after| - |foot|..] == foot
            && after[|open|..|after| - |foot|] == body
  {
    var head := "CREATE TABLE [";
    var open := "] (\n    ";
    var foot := "\n);";
    var after := open + body + foot;
    var sql := "CREATE TABLE [" + t + "] (\n    " + body + "\n);";
    CreateTextSplit(t, body, sql, head, after);
    var rest := sql[|head|..];
    IndexOfFirst(rest, ']', |t|);
    assert rest[|t|..] == after;
    assert StartsWith(after, open);
    assert after[|after| - |foot|..] == foot;
    assert after[|open|..|after| - |foot|] == body;
  }

  lemma CreateTextSplit(t: string, body: string, sql: string, head: string, after: string)
    requires head == "CREATE TABLE [" && after == "] (\n    " + body + "\n);"
    requires sql == "CREATE TABLE [" + t + "] (\n    " + body + "\n);"
    ensures StartsWith(sql, head) && sql[|head|..] == t + after && sql[|head|..][..|t|] == t
  {
  }

  /** The column list of an INSERT names each column once, in order. */
  lemma ColumnListRoundTrip(columns: seq<string>)
    requires forall i :: 0 <= i < |columns| ==> ']' !in columns[i]
    ensures ParseItems(ColumnList(columns), ", ") == Some(ColumnItems(columns))
  {
    ParseItemsText(ColumnItems(columns), ", ");
  }

  lemma {:induction false} PlaceholderCount(n: nat)
    ensures Count(Placeholders(n), '?') == n
  {
    if n > 1 {
      var qs := seq(n, _ => "?");
      assert qs[1..] == seq(n - 1, _ => "?");
      assert Placeholders(n) == "?" + (", " + Placeholders(n - 1));
      PlaceholderCount(n - 1);
      CountAppend("?", ", " + Placeholders(n - 1), '?');
      CountAppend(", ", Placeholders(n - 1), '?');
    } else if n == 1 {
      assert Placeholders(n) == "?";
    }
  }

  lemma {:induction false} NoCharInJoin(sep: string, xs: seq<string>, c: char)
    requires c !in sep && forall i :: 0 <= i < |xs| ==> c !in xs[i]
    ensures c !in Join(sep, xs)
    decreases |xs|
  {
    if |xs| > 1 {
      NoCharInJoin(sep, xs[1..], c);
    }
  }

  lemma {:induction false} CountAbsent(s: string, c: char)
    requires c !in s
    ensures Count(s, c) == 0
  {
    if s != [] {
      CountAbsent(s[1..], c);
    }
  }

  /**
   * When neither the table name nor any column name holds a `?`, the INSERT
   * text carries exactly one parameter marker per column.
   */
  lemma InsertMarkers(t: string, columns: seq<string>)
    requires '?' !in t && forall i :: 0 <= i < |columns| ==> '?' !in columns[i]
    ensures Count(InsertText(t, columns), '?') == |columns|
  {
    var items := ColumnItems(columns);
    var xs := seq(|items|, i requires 0 <= i < |items| => Item(items[i].0, items[i].1));
    NoCharInJoin(", ", xs, '?');
    var a := "INSERT INTO [" + t + "] (" + ColumnList(columns) + ") VALUES (";
    CountAbsent(a, '?');
    CountAbsent(")", '?');
    PlaceholderCount(|columns|);
    CountAppend(a, Placeholders(|columns|), '?');
    CountAppend(a + Placeholders(|columns|), ")", '?');
  }

  // ------------------------------------------------------------ acceptance

  /** The server accepts every statement of `ops`, each after `before` and the ones before it. */
  predicate AcceptedAfter(s: Server, before: seq<Op>, ops: seq<Op>) {
    forall i :: 0 <= i < |ops| ==> s.accepts(before + ops[..i], ops[i])
  }

  /** Acceptance of two statements in a row. */
  lemma AcceptedAfterPair(s: Server, before: seq<Op>, a: Op, b: Op)
    ensures AcceptedAfter(s, before, [a, b]) <==> s.accepts(before, a) && s.accepts(before + [a], b)
  {
    assert before + [a, b][..0] == before;
    assert before + [a, b][..1] == before + [a];
  }

  /** The server accepts every statement of `ops` sent on a fresh connection. */
  predicate AllAccepted(s: Server, ops: seq<Op>) {
    AcceptedAfter(s, [], ops)
  }

  /** Acceptance of two runs of statements, one after the other. */
  lemma AcceptedAfterAppend(s: Server, before: seq<Op>, a: seq<Op>, b: seq<Op>)
    ensures AcceptedAfter(s, before, a + b) <==> AcceptedAfter(s, before, a) && AcceptedAfter(s, before + a, b)
  {
    var ab := a + b;
    assert forall i :: 0 <= i < |a| ==> ab[..i] == a[..i] && ab[i] == a[i];
    assert forall i :: 0 <= i < |b| ==> before + ab[..|a| + i] == before + a + b[..i] && ab[|a| + i] == b[i];
    if AcceptedAfter(s, before, a) && AcceptedAfter(s, before + a, b) {
      forall i | 0 <= i < |ab|
        ensures s.accepts(before + ab[..i], ab[i])
      {
        if i >= |a| {
          assert before + ab[..|a| + (i - |a|)] == before + a + b[..i - |a|];
        }
      }
    }
  }

  // ------------------------------------------------------------ connection

  /** A pyodbc connection and its cursor: every call is recorded in `log`. */
  class Connection {
    const server: Server
    var log: seq<Op>

    constructor (server: Server)
      ensures this.server == server && log == []
    {
      this.server := server;
      log := [];
    }

    /**
     * `cursor.execute(SELECT OBJECT_ID(...)); fetchone()[0] is not None`;
     * `ok` is false when the execute raises (a quote in the name breaks the text).
     */
    method ObjectId(table: string) returns (ok: bool, present: bool)
      modifies this
      ensures log == old(log) + [ObjectIdQuery(table)]
      ensures ok == server.accepts(old(log), ObjectIdQuery(table))
      ensures present == (ok && server.hasTable(table))
    {
      ok := server.accepts(log, ObjectIdQuery(table));
      log := log + [ObjectIdQuery(table)];
      present := ok && server.hasTable(table);
    }

    /** `cursor.execute(<catalog query>, table); fetchall()` */
    method Catalog(table: string) returns (rows: seq<CatalogRow>)
      modifies this
      ensures log == old(log) + [CatalogQuery(table)]
      ensures rows == server.catalog(table)
    {
      log := log + [CatalogQuery(table)];
      rows := server.catalog(table);
    }

    /** `cursor.execute` / `executemany` / `conn.commit()`; `ok` is false when it raises. */
    method Execute(op: Op) returns (ok: bool)
      modifies this
      ensures log == old(log) + [op]
      ensures ok == server.accepts(old(log), op)
    {
      ok := server.accepts(log, op);
      log := log + [op];
    }

    method Close()
      modifies this
      ensures log == old(log) + [Op.Close]
    {
      log := log + [Op.Close];
    }
  }

  // ------------------------------------------------------------ bulk insert

  /** The single-row INSERTs of the fallback path, one per row, in row order. */
  function RowInserts(table: string, columns: seq<string>, rows: seq<Row>): (r: seq<Op>)
    ensures |r| == |rows|
    ensures forall i :: 0 <= i < |rows| ==> r[i] == InsertRow(table, columns, rows[i])
  {
    seq(|rows|, i requires 0 <= i < |rows| => InsertRow(table, columns, rows[i]))
  }

  /** Whether the server accepts row `i` when the rows are tried one by one after `before`. */
  predicate RowAccepted(accepts: (seq<Op>, Op) -> bool, before: seq<Op>, table: string, columns: seq<string>, rows: seq<Row>, i: nat)
    requires i < |rows|
  {
    accepts(before + RowInserts(table, columns, rows[..i]), InsertRow(table, columns, rows[i]))
  }

  /** The indices among the first `k` rows that the fallback logs as failed. */
  function FailedRows(accepts: (seq<Op>, Op) -> bool, before: seq<Op>, table: string, columns: seq<string>, rows: seq<Row>, k: nat): seq<nat>
    requires k <= |rows|
  {
    if k == 0 then []
    else FailedRows(accepts, before, table, columns, rows, k - 1)
         + (if RowAccepted(accepts, before, table, columns, rows, k - 1) then [] else [k - 1])
  }

  /**
   * The failure log names exactly the rejected rows, each once, in row order:
   * a rejected row does not stop the rows after it.
   */
  lemma {:induction false} FailedRowsExact(accepts: (seq<Op>, Op) -> bool, before: seq<Op>, table: string, columns: seq<string>, rows: seq<Row>, k: nat)
    requires k <= |rows|
    ensures forall i :: i in FailedRows(accepts, before, table, columns, rows, k)
                        <==> 0 <= i < k && !RowAccepted(accepts, before, table, columns, rows, i)
    ensures forall a, b :: 0 <= a < b < |FailedRows(accepts, before, table, columns, rows, k)| ==>
              FailedRows(accepts, before, table, columns, rows, k)[a] < FailedRows(accepts, before, table, columns, rows, k)[b]
    ensures forall a :: 0 <= a < |FailedRows(accepts, before, table, columns, rows, k)| ==>
              FailedRows(accepts, before, table, columns, rows, k)[a] < k
  {
    if k > 0 {
      FailedRowsExact(accepts, before, table, columns, rows, k - 1);
      var prev := FailedRows(accepts, before, table, columns, rows, k - 1);
      var add: seq<nat> := if RowAccepted(accepts, before, table, columns, rows, k - 1) then [] else [k - 1];
      var f := FailedRows(accepts, before, table, columns, rows, k);
      assert f == prev + add;
      assert forall a :: 0 <= a < |prev| ==> f[a] == prev[a] && prev[a] < k - 1;
      assert forall a :: |prev| <= a < |f| ==> f[a] == k - 1;
    }
  }

  /**
   * `insert_data`: one `executemany` of every row; when the server rejects it,
   * every row is tried once more on its own, in order, a rejected row is
   * logged and skipped, and the batch failure is reported (`ok == false`)
   * whatever the single rows did. Nothing here commits.
   */
  method InsertWithFallback(conn: Connection, table: string, df: Frame) returns (ok: bool, failed: seq<nat>)
    requires df.Valid()
    modifies conn
    ensures var batch := InsertBatch(table, df.Names(), df.Rows());
            && ok == conn.server.accepts(old(conn.log), batch)
            && (ok ==> conn.log == old(conn.log) + [batch] && failed == [])
            && (!ok ==> conn.log == old(conn.log) + [batch] + RowInserts(table, df.Names(), df.Rows())
                        && failed == FailedRows(conn.server.accepts, old(conn.log) + [batch], table, df.Names(), df.Rows(), df.nrows))
  {
    var columns := df.Names();
    var rows := df.Rows();
    ok := conn.Execute(InsertBatch(table, columns, rows));
    failed := [];
    if !ok {
      ghost var before := conn.log;
      var i := 0;
      while i < |rows|
        invariant 0 <= i <= |rows|
        invariant conn.log == before + RowInserts(table, columns, rows[..i])
        invariant failed == FailedRows(conn.server.accepts, before, table, columns, rows, i)
      {
        var rowOk := conn.Execute(InsertRow(table, columns, rows[i]));
        if !rowOk {
          failed := failed + [i];
        }
        assert RowInserts(table, columns, rows[..i + 1]) == RowInserts(table, columns, rows[..i]) + [InsertRow(table, columns, rows[i])];
        i := i + 1;
      }
      assert rows[..|rows|] == rows;
    }
  }

  // ---------------------------------------------------------------- outcomes

  /** Why an import stopped: the exception the source raises, by kind. */
  datatype Failure =
    | UnsupportedFormat                 // `read_file`'s ValueError
    | CleaningFailed                    // `.str` raised in cleaning: a shared label, or an object column without strings
    | ConnectFailed                     // `pyodbc.connect` raised
    | InvalidTableName                  // `create_table`'s ValueError
    | Rejected(op: Op)                  // the server refused a statement or a commit
    | BatchRejected(failedRows: seq<nat>) // `insert_data` re-raised the batch error; the rows it logged
    | FullFrameUnbound                  // `len(full_df)` before `full_df` was assigned

  /** What the user is told at the end of an import. */
  datatype Outcome = MissingInfo | Canceled | Imported(rows: nat) | Failed(why: Failure)

  /** The result of a step that may raise. */
  datatype Status = Done | Raised(why: Failure)
}
