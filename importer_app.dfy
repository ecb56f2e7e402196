/**
 * The database-facing half of the GUI importer (`importer.py`, identical in
 * `main.py`): the `SQLImporter` class over one connection, the column-mapping
 * window's result, the applying of a confirmed mapping, and `import_data`,
 * the sequence of reads, checks and statements behind the Import button.
 */
module ImporterApp {
  import opened Strings
  import opened Frames
  import opened Sql
  import opened Importer
  import opened Paths

  // ------------------------------------------------------------ SQLImporter

  /** `SQLImporter`: a connection string and, once connected, the connection and its cursor. */
  class SQLImporter {
    const connStr: Server
    var conn: Connection?

    constructor (connStr: Server)
      ensures this.connStr == connStr && conn == null
    {
      this.connStr := connStr;
      conn := null;
    }

    /** `connect`: on success the fields refer to a new connection with an empty history. */
    method Connect() returns (ok: bool)
      modifies this
      ensures ok == connStr.reachable
      ensures ok ==> conn != null && fresh(conn) && conn.server == connStr && conn.log == []
      ensures !ok ==> conn == old(conn)
    {
      ok := connStr.reachable;
      if ok {
        conn := new Connection(connStr);
      }
    }

    /** `close`: closes the cursor and the connection when there are any. */
    method Close()
      modifies conn
      ensures conn != null ==> conn.log == old(conn.log) + [Op.Close]
    {
      if conn != null {
        conn.Close();
      }
    }

    /** `table_exists`: the name goes into the query text as given; `ok` is false when the query raises. */
    method TableExists(t: string) returns (ok: bool, present: bool)
      requires conn != null
      modifies conn
      ensures conn.log == old(conn.log) + [ObjectIdQuery(t)]
      ensures ok == conn.server.accepts(old(conn.log), ObjectIdQuery(t))
      ensures present == (ok && conn.server.hasTable(t))
    {
      ok, present := conn.ObjectId(t);
    }

    /** `get_existing_columns`: the catalog rows of the table, each as (name, label). */
    method GetExistingColumns(t: string) returns (columns: seq<(string, string)>)
      requires conn != null
      modifies conn
      ensures conn.log == old(conn.log) + [CatalogQuery(t)]
      ensures columns == Labels(conn.server.catalog(t))
    {
      var rows := conn.Catalog(t);
      columns := LabelColumns(rows);
    }

    /**
     * `create_table`: refuses a name outside `^[a-zA-Z0-9_]+$` before sending
     * anything, then sends the CREATE and, if the server took it, a commit.
     */
    method CreateTable(t: string, df: Frame) returns (status: Status)
      requires conn != null
      modifies conn
      ensures !ValidTableName(t) ==> status == Raised(InvalidTableName) && conn.log == old(conn.log)
      ensures ValidTableName(t) ==>
                var create := Op.CreateTable(t, ColumnDefs(df));
                if !conn.server.accepts(old(conn.log), create) then
                  status == Raised(Rejected(create)) && conn.log == old(conn.log) + [create]
                else
                  conn.log == old(conn.log) + [create, Commit]
                  && status == (if conn.server.accepts(old(conn.log) + [create], Commit) then Done else Raised(Rejected(Commit)))
    {
      if !ValidTableName(t) {
        return Raised(InvalidTableName);
      }
      var create := Op.CreateTable(t, ColumnDefs(df));
      var ok := conn.Execute(create);
      if !ok {
        return Raised(Rejected(create));
      }
      ok := conn.Execute(Commit);
      status := if ok then Done else Raised(Rejected(Commit));
    }

    /** `drop_table`: the name goes into the statement unchecked; a commit follows an accepted drop. */
    method DropTable(t: string) returns (status: Status)
      requires conn != null
      modifies conn
      ensures var drop := Op.DropTable(t);
              if !conn.server.accepts(old(conn.log), drop) then
                status == Raised(Rejected(drop)) && conn.log == old(conn.log) + [drop]
              else
                conn.log == old(conn.log) + [drop, Commit]
                && status == (if conn.server.accepts(old(conn.log) + [drop], Commit) then Done else Raised(Rejected(Commit)))
    {
      var drop := Op.DropTable(t);
      var ok := conn.Execute(drop);
      if !ok {
        return Raised(Rejected(drop));
      }
      ok := conn.Execute(Commit);
      status := if ok then Done else Raised(Rejected(Commit));
    }

    /** `insert_data`: the batch, then the row-by-row fallback; nothing is committed here. */
    method InsertData(t: string, df: Frame) returns (ok: bool, failed: seq<nat>)
      requires conn != null && df.Valid()
      modifies conn
      ensures var batch := InsertBatch(t, df.Names(), df.Rows());
              && ok == conn.server.accepts(old(conn.log), batch)
              && (ok ==> conn.log == old(conn.log) + [batch] && failed == [])
              && (!ok ==> conn.log == old(conn.log) + [batch] + RowInserts(t, df.Names(), df.Rows())
                          && failed == FailedRows(conn.server.accepts, old(conn.log) + [batch], t, df.Names(), df.Rows(), df.nrows))
    {
      ok, failed := InsertWithFallback(conn, t, df);
    }
  }

  /** The (name, label) pairs `get_existing_columns` returns for some catalog rows. */
  function Labels(rows: seq<CatalogRow>): (r: seq<(string, string)>)
    ensures |r| == |rows|
    ensures forall i :: 0 <= i < |rows| ==> r[i] == (rows[i].columnName, TypeLabel(rows[i]))
  {
    seq(|rows|, i requires 0 <= i < |rows| => (rows[i].columnName, TypeLabel(rows[i])))
  }

  // --------------------------------------------------------- mapping window

  /** The first entry of every drop-down of the mapping window. */
  const SkipColumn: string := "Skip Column"

  /** A drop-down entry for a table column: `"name (label)"`. */
  function TypedLabel(col: (string, string)): string {
    col.0 + " (" + col.1 + ")"
  }

  /** What `on_done` records for one drop-down: nothing for Skip, else the text before the first space. */
  function Choice(selected: string): Option<string> {
    if selected == SkipColumn then None else Some(FirstField(selected))
  }

  /**
   * Picking a table column's entry records exactly that column's name, as
   * long as the name holds no space; and no such entry reads as Skip.
   */
  lemma ChoiceOfTypedLabel(col: (string, string))
    requires ' ' !in col.0
    ensures TypedLabel(col) != SkipColumn
    ensures Choice(TypedLabel(col)) == Some(col.0)
  {
    var s := TypedLabel(col);
    assert s == col.0 + (" (" + col.1 + ")");
    IndexOfFirst(s, ' ', |col.0|);
    assert s[..|col.0|] == col.0;
    assert s[|s| - 1] == ')';
    assert SkipColumn[|SkipColumn| - 1] == 'n';
  }

  /**
   * The dictionary `on_done` fills: the drop-downs are read in window order,
   * each one setting the entry of its file column.
   */
  function MappingOf(fileCols: seq<string>, picked: seq<string>): (m: map<string, Option<string>>)
    requires |picked| == |fileCols|
    ensures forall c :: c in m <==> c in fileCols
  {
    if fileCols == [] then map[]
    else
      var n := |fileCols| - 1;
      MappingOf(fileCols[..n], picked[..n])[fileCols[n] := Choice(picked[n])]
  }

  /** A file column's entry is what its last drop-down in the window says. */
  lemma {:induction false} MappingLastWins(fileCols: seq<string>, picked: seq<string>, j: nat)
    requires |picked| == |fileCols| && j < |fileCols|
    requires forall k :: j < k < |fileCols| ==> fileCols[k] != fileCols[j]
    ensures MappingOf(fileCols, picked)[fileCols[j]] == Choice(picked[j])
    decreases |fileCols|
  {
    var n := |fileCols| - 1;
    if j < n {
      MappingLastWins(fileCols[..n], picked[..n], j);
    }
  }

  /** Every entry of the dictionary comes from one of the drop-downs for that column. */
  lemma {:induction false} MappingFromWindow(fileCols: seq<string>, picked: seq<string>, c: string)
    requires |picked| == |fileCols| && c in MappingOf(fileCols, picked)
    ensures exists j :: 0 <= j < |fileCols| && fileCols[j] == c && MappingOf(fileCols, picked)[c] == Choice(picked[j])
    decreases |fileCols|
  {
    var n := |fileCols| - 1;
    if fileCols[n] != c {
      MappingFromWindow(fileCols[..n], picked[..n], c);
      var j :| 0 <= j < n && fileCols[..n][j] == c && MappingOf(fileCols[..n], picked[..n])[c] == Choice(picked[..n][j]);
      assert fileCols[j] == c && picked[j] == picked[..n][j];
    }
  }

  /** `on_done`: reads every drop-down in window order into the mapping. */
  method OnDone(fileCols: seq<string>, picked: seq<string>) returns (mapping: map<string, Option<string>>)
    requires |picked| == |fileCols|
    ensures mapping == MappingOf(fileCols, picked)
  {
    mapping := map[];
    for i := 0 to |fileCols|
      invariant mapping == MappingOf(fileCols[..i], picked[..i])
    {
      var selected := picked[i];
      mapping := mapping[fileCols[i] := if selected != SkipColumn then Some(FirstField(selected)) else None];
      assert fileCols[..i + 1][..i] == fileCols[..i] && picked[..i + 1][..i] == picked[..i];
    }
    assert fileCols[..|fileCols|] == fileCols && picked[..|picked|] == picked;
  }

  /**
   * `map_columns`: the mapping when the user pressed Apply Mapping (`answer`
   * holds the value left in each drop-down), `None` when the window was
   * closed without it.
   */
  method MapColumns(fileCols: seq<string>, existing: seq<(string, string)>, answer: Option<seq<string>>)
    returns (mapping: Option<map<string, Option<string>>>)
    requires answer.Some? ==> |answer.value| == |fileCols|
    ensures answer.None? ==> mapping.None?
    ensures answer.Some? ==> mapping == Some(MappingOf(fileCols, answer.value))
  {
    if answer.None? {
      return None;
    }
    var m := OnDone(fileCols, answer.value);
    mapping := Some(m);
  }

  /** The entries of the read-only drop-downs: Skip first, then one per table column. */
  function Entries(existing: seq<(string, string)>): seq<string> {
    [SkipColumn] + seq(|existing|, i requires 0 <= i < |existing| => TypedLabel(existing[i]))
  }

  /** An offered entry records either nothing or the name of one of the table's columns. */
  lemma EntryChoice(existing: seq<(string, string)>, e: string)
    requires e in Entries(existing)
    requires forall i :: 0 <= i < |existing| ==> ' ' !in existing[i].0
    ensures Choice(e).Some? ==> exists i :: 0 <= i < |existing| && existing[i].0 == Choice(e).value
  {
    if e != SkipColumn {
      var es := Entries(existing);
      var k :| 0 <= k < |es| && es[k] == e;
      assert k != 0;
      ChoiceOfTypedLabel(existing[k - 1]);
      assert existing[k - 1].0 == Choice(e).value;
    }
  }

  /**
   * A confirmed mapping has an entry for every file column, and every target
   * it names is a column of the table, when the user could only pick offered
   * entries and no table column name holds a space.
   */
  lemma MappedTargetsExist(fileCols: seq<string>, existing: seq<(string, string)>, picked: seq<string>)
    requires |picked| == |fileCols|
    requires forall j :: 0 <= j < |picked| ==> picked[j] in Entries(existing)
    requires forall i :: 0 <= i < |existing| ==> ' ' !in existing[i].0
    ensures forall c :: c in fileCols ==> c in MappingOf(fileCols, picked)
    ensures forall c :: c in MappingOf(fileCols, picked) && MappingOf(fileCols, picked)[c].Some? ==>
              exists i :: 0 <= i < |existing| && existing[i].0 == MappingOf(fileCols, picked)[c].value
  {
    var m := MappingOf(fileCols, picked);
    forall c | c in m && m[c].Some?
      ensures exists i :: 0 <= i < |existing| && existing[i].0 == m[c].value
    {
      MappingFromWindow(fileCols, picked, c);
      var j :| 0 <= j < |fileCols| && fileCols[j] == c && m[c] == Choice(picked[j]);
      EntryChoice(existing, picked[j]);
    }
  }

  // -------------------------------------------------------- applying mapping

  /** `{k: v for k, v in mapping.items() if v is not None}` */
  function RenameMap(m: map<string, Option<string>>): map<string, string> {
    map k | k in m && m[k].Some? :: m[k].value
  }

  /** `[k for k, v in mapping.items() if v is None]` */
  function Skipped(m: map<string, Option<string>>): set<string> {
    set k | k in m && m[k].None?
  }

  /** Lines 300-302: rename the mapped columns, then drop by the skipped names. */
  function ApplyMapping(df: Frame, m: map<string, Option<string>>): (r: Frame)
    ensures r.nrows == df.nrows
    ensures df.Valid() ==> r.Valid()
  {
    Drop(Rename(df, RenameMap(m)), Skipped(m))
  }

  /**
   * When no target of the mapping is also a skipped name, applying it keeps
   * exactly the columns not skipped, each under its mapped name.
   */
  lemma ApplyMappingExact(df: Frame, m: map<string, Option<string>>)
    requires forall k :: k in m && m[k].Some? ==> m[k].value !in Skipped(m)
    ensures forall c :: c in ApplyMapping(df, m).cols <==>
              exists j :: 0 <= j < |df.cols| && df.cols[j].name !in Skipped(m)
                          && c == df.cols[j].(name := Renamed(RenameMap(m), df.cols[j].name))
  {
    var renamed := Rename(df, RenameMap(m));
    forall j | 0 <= j < |df.cols|
      ensures renamed.cols[j].name in Skipped(m) <==> df.cols[j].name in Skipped(m)
    {
      var k := df.cols[j].name;
      if k in RenameMap(m) {
        assert k in m && m[k].Some?;
      }
    }
    forall c | c in ApplyMapping(df, m).cols
      ensures exists j :: 0 <= j < |df.cols| && df.cols[j].name !in Skipped(m)
                          && c == df.cols[j].(name := Renamed(RenameMap(m), df.cols[j].name))
    {
      var j :| 0 <= j < |renamed.cols| && renamed.cols[j] == c;
    }
  }

  /**
   * Without that condition a mapped column can vanish: mapping `b` onto the
   * name of a skipped column `a` drops both.
   */
  lemma ApplyMappingCollision()
    ensures var a := Column("a", Object, []);
            var b := Column("b", Object, []);
            ApplyMapping(Frame(0, [a, b]), map["a" := None, "b" := Some("a")]).cols == []
  {
    var m := map["a" := None, "b" := Some("a")];
    assert RenameMap(m) == map["b" := "a"];
    assert Skipped(m) == {"a"};
  }

  // ------------------------------------------------------------ import_data

  /** The frame `read_file` gives after the headers are sanitised and the data cleaned; `None` when cleaning raises. */
  function Prepared(read: Frame): Option<Frame> {
    Cleaned(RenameAll(read, SanitizeColumnName))
  }

  /**
   * The Import button: `pathEntry` and `tableEntry` are the texts of the two
   * entries, `previewCount` the drop-down's number, `previewed` and
   * `contents` what pandas finds in the file on the preview read and on the
   * full read (two separate reads, each inferring its own types, of a file
   * that may change in between), `server` the database behind the
   * connection string, `answer` what the mapping window returns and `useCustom` the
   * `USE_CUSTOM_COLUMNS` switch. The result is what the user is told and
   * every statement sent, in order.
   */
  function ImportRun(pathEntry: string, tableEntry: string, previewCount: nat, previewed: Frame, contents: Frame, server: Server,
                     answer: Option<seq<string>>, useCustom: bool): (Outcome, seq<Op>)
    requires previewed.Valid() && contents.Valid()
    requires answer.Some? ==> |answer.value| == |contents.cols|
  {
    var path := Strip(pathEntry);
    var t := Strip(tableEntry);
    if path == [] || t == [] then (MissingInfo, [])
    else match ReadFile(path, Some(previewCount), previewed)
      case None => (Failed(UnsupportedFormat), [])
      case Some(read) =>
        if Prepared(read.1).None? then (Failed(CleaningFailed), [])
        else if !server.reachable then (Failed(ConnectFailed), [])
        else
          var run := ConnectedRun(server, path, t, contents, answer, useCustom);
          (run.0, run.1 + [Op.Close])
  }

  /** Where a stage of `import_data` leaves off: carry on (with `full_df` once it is bound), or stop with an outcome. */
  datatype Step = Continue(full: Option<Frame>) | Stop(outcome: Outcome)

  /**
   * The part of `import_data` that runs on an open connection, up to the
   * closing in `finally`: the existence check, the catalog, the block guarded
   * by `existing_columns or not table_exists`, the commit and the final
   * `len(full_df)`, which raises when the block was skipped.
   */
  function ConnectedRun(s: Server, path: string, t: string, contents: Frame, answer: Option<seq<string>>,
                        useCustom: bool): (Outcome, seq<Op>)
    requires contents.Valid()
    requires answer.Some? ==> |answer.value| == |contents.cols|
  {
    var block := Probe(s, path, t, contents, answer, useCustom);
    Finish(s, block.0, block.1)
  }

  /**
   * Lines 276-314: the queries, then the block when `existing_columns or not
   * table_exists` holds; the second existence check runs only when no columns
   * were found, and either check stops the run when the server refuses it.
   */
  function Probe(s: Server, path: string, t: string, contents: Frame, answer: Option<seq<string>>,
                 useCustom: bool): (Step, seq<Op>)
    requires contents.Valid()
    requires answer.Some? ==> |answer.value| == |contents.cols|
  {
    var query := ObjectIdQuery(t);
    if !s.accepts([], query) then (Stop(Failed(Rejected(query))), [query])
    else
      var existing := Existing(s, t);
      var looked := Looked(s, t);
      if existing != [] then BlockRun(s, path, t, contents, existing, answer, useCustom, looked)
      else if !s.accepts(looked, query) then (Stop(Failed(Rejected(query))), looked + [query])
      else if !s.hasTable(t) then BlockRun(s, path, t, contents, existing, answer, useCustom, looked + [query])
      else (Continue(None), looked + [query])
  }

  /** What `get_existing_columns` gave, or the empty list when the table is missing. */
  function Existing(s: Server, t: string): seq<(string, string)> {
    if s.hasTable(t) then Labels(s.catalog(t)) else []
  }

  /** The queries of lines 277-280 once the first existence check went through: the catalog is read only for a table that exists. */
  function Looked(s: Server, t: string): (r: seq<Op>)
    ensures |r| >= 1 && r[0] == ObjectIdQuery(t)
    ensures forall i :: 0 <= i < |r| ==> r[i] == ObjectIdQuery(t) || r[i] == CatalogQuery(t)
    ensures CatalogQuery(t) in r <==> s.hasTable(t)
  {
    if s.hasTable(t) then [ObjectIdQuery(t), CatalogQuery(t)] else [ObjectIdQuery(t)]
  }

  /** Lines 316-317 after the block (or after skipping it): commit, then report `len(full_df)`. */
  function Finish(s: Server, step: Step, log: seq<Op>): (Outcome, seq<Op>) {
    match step
    case Stop(outcome) => (outcome, log)
    case Continue(full) =>
      if !s.accepts(log, Commit) then (Failed(Rejected(Commit)), log + [Commit])
      else if full.None? then (Failed(FullFrameUnbound), log + [Commit])
      else (Imported(full.value.nrows), log + [Commit])
  }

  /** Lines 284-314 after `before`: the full read, the mapping, the custom schema, then the writes. */
  function BlockRun(s: Server, path: string, t: string, contents: Frame, existing: seq<(string, string)>,
                    answer: Option<seq<string>>, useCustom: bool, before: seq<Op>): (Step, seq<Op>)
    requires contents.Valid()
    requires answer.Some? ==> |answer.value| == |contents.cols|
  {
    match ReadFile(path, None, contents)
    case None => (Stop(Failed(UnsupportedFormat)), before)
    case Some(read) =>
      match Prepared(read.1)
      case None => (Stop(Failed(CleaningFailed)), before)
      case Some(full) =>
        if existing != [] && answer.None? then (Stop(Canceled), before)
        else WriteRun(s, t, Shaped(full, existing, answer, useCustom), before)
  }

  /** Lines 290-305: the confirmed mapping applied when the table has columns, then the custom schema when it is on. */
  function Shaped(full: Frame, existing: seq<(string, string)>, answer: Option<seq<string>>, useCustom: bool): (r: Frame)
    requires full.Valid()
    requires existing != [] ==> answer.Some? && |answer.value| == |full.cols|
    ensures r.Valid() && r.nrows == full.nrows
  {
    var mapped := if existing != [] then ApplyMapping(full, MappingOf(full.Names(), answer.value)) else full;
    if useCustom then MapCustomColumns(mapped) else mapped
  }

  /** Lines 307-314 after `before`: check for the table (the check itself can raise), create it when missing, insert. */
  function WriteRun(s: Server, t: string, df: Frame, before: seq<Op>): (Step, seq<Op>)
    requires df.Valid()
  {
    var checked := before + [ObjectIdQuery(t)];
    if !s.accepts(before, ObjectIdQuery(t)) then (Stop(Failed(Rejected(ObjectIdQuery(t)))), checked)
    else if !s.hasTable(t) then
      if !ValidTableName(t) then (Stop(Failed(InvalidTableName)), checked)
      else
        var create := Op.CreateTable(t, ColumnDefs(df));
        if !s.accepts(checked, create) then (Stop(Failed(Rejected(create))), checked + [create])
        else if !s.accepts(checked + [create], Commit) then (Stop(Failed(Rejected(Commit))), checked + [create, Commit])
        else InsertRun(s, t, df, checked + [create, Commit])
    else InsertRun(s, t, df, checked)
  }

  /** `insert_data` after `before`: the batch, and the single rows when the batch is refused. */
  function InsertRun(s: Server, t: string, df: Frame, before: seq<Op>): (Step, seq<Op>)
    requires df.Valid()
  {
    var batch := InsertBatch(t, df.Names(), df.Rows());
    if !s.accepts(before, batch) then
      var failed := FailedRows(s.accepts, before + [batch], t, df.Names(), df.Rows(), df.nrows);
      (Stop(Failed(BatchRejected(failed))), before + [batch] + RowInserts(t, df.Names(), df.Rows()))
    else (Continue(Some(df)), before + [batch])
  }

  /**
   * `import_data`, step by step: the import object is made only once the
   * file has been read and cleaned, and closed in `finally` whenever it was
   * made (a failed connect leaves nothing to close).
   */
  method ImportData(pathEntry: string, tableEntry: string, previewCount: nat, previewed: Frame, contents: Frame, server: Server,
                    answer: Option<seq<string>>, useCustom: bool) returns (outcome: Outcome, log: seq<Op>)
    requires previewed.Valid() && contents.Valid()
    requires answer.Some? ==> |answer.value| == |contents.cols|
    ensures (outcome, log) == ImportRun(pathEntry, tableEntry, previewCount, previewed, contents, server, answer, useCustom)
  {
    var path := Strip(pathEntry);
    var t := Strip(tableEntry);
    if path == [] || t == [] {
      return MissingInfo, [];
    }
    var read := ReadFile(path, Some(previewCount), previewed);
    if read.None? {
      return Failed(UnsupportedFormat), [];
    }
    var preview := CleanDataframe(RenameAll(read.value.1, SanitizeColumnName));
    if preview.None? {
      return Failed(CleaningFailed), [];
    }
    var importer := new SQLImporter(server);
    var connected := importer.Connect();
    if !connected {
      return Failed(ConnectFailed), [];
    }
    outcome := ImportConnected(importer, path, t, contents, answer, useCustom);
    importer.Close();
    log := importer.conn.log;
  }

  /** The `try` block of `import_data` from the existence check to the final status. */
  method ImportConnected(importer: SQLImporter, path: string, t: string, contents: Frame,
                         answer: Option<seq<string>>, useCustom: bool) returns (outcome: Outcome)
    requires importer.conn != null && importer.conn.log == []
    requires contents.Valid()
    requires answer.Some? ==> |answer.value| == |contents.cols|
    modifies importer.conn
    ensures (outcome, importer.conn.log) == ConnectedRun(importer.conn.server, path, t, contents, answer, useCustom)
  {
    var existing: seq<(string, string)> := [];
    var ok, present := importer.TableExists(t);
    if !ok {
      assert importer.conn.log == [ObjectIdQuery(t)];
      assert !importer.conn.server.accepts([], ObjectIdQuery(t));
      assert Probe(importer.conn.server, path, t, contents, answer, useCustom) == (Stop(Failed(Rejected(ObjectIdQuery(t)))), importer.conn.log);
      return Failed(Rejected(ObjectIdQuery(t)));
    }
    if present {
      existing := importer.GetExistingColumns(t);
    }
    assert existing == Existing(importer.conn.server, t);
    assert importer.conn.log == Looked(importer.conn.server, t);
    var fullDf: Option<Frame> := None;
    var absent := false;
    if existing == [] {
      ghost var looked := importer.conn.log;
      var again;
      ok, again := importer.TableExists(t);
      assert importer.conn.log == looked + [ObjectIdQuery(t)];
      if !ok {
        return Failed(Rejected(ObjectIdQuery(t)));
      }
      absent := !again;
    }
    if existing != [] || absent {
      var step := LoadAndWrite(importer, path, t, contents, existing, answer, useCustom);
      if step.Stop? {
        return step.outcome;
      }
      fullDf := step.full;
    }
    var committed := importer.conn.Execute(Commit);
    if !committed {
      return Failed(Rejected(Commit));
    }
    if fullDf.None? {
      return Failed(FullFrameUnbound);
    }
    outcome := Imported(fullDf.value.nrows);
  }

  /** The block of lines 284-314. */
  method LoadAndWrite(importer: SQLImporter, path: string, t: string, contents: Frame, existing: seq<(string, string)>,
                      answer: Option<seq<string>>, useCustom: bool) returns (step: Step)
    requires importer.conn != null
    requires contents.Valid()
    requires answer.Some? ==> |answer.value| == |contents.cols|
    modifies importer.conn
    ensures (step, importer.conn.log) == BlockRun(importer.conn.server, path, t, contents, existing, answer, useCustom, old(importer.conn.log))
  {
    var read := ReadFile(path, None, contents);
    if read.None? {
      return Stop(Failed(UnsupportedFormat));
    }
    var full := CleanDataframe(RenameAll(read.value.1, SanitizeColumnName));
    if full.None? {
      return Stop(Failed(CleaningFailed));
    }
    var df := full.value;
    if existing != [] {
      var mapping := MapColumns(df.Names(), existing, answer);
      if mapping.None? {
        return Stop(Canceled);
      }
      df := ApplyMapping(df, mapping.value);
    }
    if useCustom {
      df := MapCustomColumns(df);
    }
    step := CreateAndInsert(importer, t, df);
  }

  /** Lines 307-314: create the table when it is missing, then insert. */
  method CreateAndInsert(importer: SQLImporter, t: string, df: Frame) returns (step: Step)
    requires importer.conn != null && df.Valid()
    modifies importer.conn
    ensures (step, importer.conn.log) == WriteRun(importer.conn.server, t, df, old(importer.conn.log))
  {
    var ok, present := importer.TableExists(t);
    if !ok {
      return Stop(Failed(Rejected(ObjectIdQuery(t))));
    }
    if !present {
      var status := importer.CreateTable(t, df);
      if status.Raised? {
        return Stop(Failed(status.why));
      }
    }
    var failed;
    ok, failed := importer.InsertData(t, df);
    if !ok {
      return Stop(Failed(BatchRejected(failed)));
    }
    step := Continue(Some(df));
  }

  // --------------------------------------------------- properties of a run

  /** The run gets as far as an open connection: both entries filled, the file read and cleaned, the server reachable. */
  predicate Connects(pathEntry: string, tableEntry: string, previewCount: nat, previewed: Frame, server: Server)
    requires previewed.Valid()
  {
    var path := Strip(pathEntry);
    var read := ReadFile(path, Some(previewCount), previewed);
    && path != [] && Strip(tableEntry) != []
    && read.Some? && Prepared(read.value.1).Some?
    && server.reachable
  }

  /**
   * Nothing is sent before the connection is open, and once it is, the last
   * statement is the close of `finally` and no earlier one closes.
   */
  lemma ClosedExactlyOnce(pathEntry: string, tableEntry: string, previewCount: nat, previewed: Frame, contents: Frame, server: Server,
                          answer: Option<seq<string>>, useCustom: bool)
    requires previewed.Valid() && contents.Valid()
    requires answer.Some? ==> |answer.value| == |contents.cols|
    ensures var log := ImportRun(pathEntry, tableEntry, previewCount, previewed, contents, server, answer, useCustom).1;
            && (log != [] <==> Connects(pathEntry, tableEntry, previewCount, previewed, server))
            && (log != [] ==> log[|log| - 1] == Op.Close && forall i :: 0 <= i < |log| - 1 ==> !log[i].Close?)
  {
    ImportRunSplit(pathEntry, tableEntry, previewCount, previewed, contents, server, answer, useCustom);
    if Connects(pathEntry, tableEntry, previewCount, previewed, server) {
      ConnectedRunOps(server, Strip(pathEntry), Strip(tableEntry), contents, answer, useCustom);
    }
  }

  /** A run either stops before connecting, having sent nothing, or is the connected run followed by the close. */
  lemma ImportRunSplit(pathEntry: string, tableEntry: string, previewCount: nat, previewed: Frame, contents: Frame, server: Server,
                       answer: Option<seq<string>>, useCustom: bool)
    requires previewed.Valid() && contents.Valid()
    requires answer.Some? ==> |answer.value| == |contents.cols|
    ensures var r := ImportRun(pathEntry, tableEntry, previewCount, previewed, contents, server, answer, useCustom);
            !Connects(pathEntry, tableEntry, previewCount, previewed, server) ==>
              r.1 == [] && (r.0 == MissingInfo || r.0.Failed?)
    ensures var r := ImportRun(pathEntry, tableEntry, previewCount, previewed, contents, server, answer, useCustom);
            var run := ConnectedRun(server, Strip(pathEntry), Strip(tableEntry), contents, answer, useCustom);
            Connects(pathEntry, tableEntry, previewCount, previewed, server) ==>
              r == (run.0, run.1 + [Op.Close])
  {
    if Connects(pathEntry, tableEntry, previewCount, previewed, server) {
      ImportRunConnected(pathEntry, tableEntry, previewCount, previewed, contents, server, answer, useCustom);
    } else {
      ImportRunNotConnected(pathEntry, tableEntry, previewCount, previewed, contents, server, answer, useCustom);
    }
  }

  lemma ImportRunNotConnected(pathEntry: string, tableEntry: string, previewCount: nat, previewed: Frame, contents: Frame, server: Server,
                              answer: Option<seq<string>>, useCustom: bool)
    requires previewed.Valid() && contents.Valid()
    requires answer.Some? ==> |answer.value| == |contents.cols|
    requires !Connects(pathEntry, tableEntry, previewCount, previewed, server)
    ensures var r := ImportRun(pathEntry, tableEntry, previewCount, previewed, contents, server, answer, useCustom);
            r.1 == [] && (r.0 == MissingInfo || r.0.Failed?)
  {
  }

  lemma ImportRunConnected(pathEntry: string, tableEntry: string, previewCount: nat, previewed: Frame, contents: Frame, server: Server,
                           answer: Option<seq<string>>, useCustom: bool)
    requires previewed.Valid() && contents.Valid()
    requires answer.Some? ==> |answer.value| == |contents.cols|
    requires Connects(pathEntry, tableEntry, previewCount, previewed, server)
    ensures var run := ConnectedRun(server, Strip(pathEntry), Strip(tableEntry), contents, answer, useCustom);
            ImportRun(pathEntry, tableEntry, previewCount, previewed, contents, server, answer, useCustom) == (run.0, run.1 + [Op.Close])
  {
  }

  /**
   * What a connected run sends: the existence check first, with the table
   * name as typed; no close, no drop; a CREATE only of this table, only when
   * it is missing and its name passed the check; and no commit after the
   * single-row fallback started.
   */
  lemma ConnectedRunOps(s: Server, path: string, t: string, contents: Frame, answer: Option<seq<string>>, useCustom: bool)
    requires contents.Valid()
    requires answer.Some? ==> |answer.value| == |contents.cols|
    ensures var log := ConnectedRun(s, path, t, contents, answer, useCustom).1;
            && |log| >= 1 && log[0] == ObjectIdQuery(t)
            && (forall i :: 0 <= i < |log| ==> !log[i].Close? && !log[i].DropTable? && !log[i].DropIfExists?)
            && (forall i :: 0 <= i < |log| && log[i].CreateTable? ==> log[i].table == t && !s.hasTable(t) && ValidTableName(t))
            && (forall i, j :: 0 <= i < j < |log| && log[i].InsertRow? ==> !log[j].Commit?)
  {
    var block := Probe(s, path, t, contents, answer, useCustom);
    ProbeOps(s, path, t, contents, answer, useCustom);
    FinishKeeps(s, t, block.0, block.1);
  }

  /** The statements up to the end of the block: the queries first, then what the block sent. */
  lemma ProbeOps(s: Server, path: string, t: string, contents: Frame, answer: Option<seq<string>>, useCustom: bool)
    requires contents.Valid()
    requires answer.Some? ==> |answer.value| == |contents.cols|
    ensures var r := Probe(s, path, t, contents, answer, useCustom);
            |r.1| >= 1 && r.1[0] == ObjectIdQuery(t) && WritesAfter(s, t, r, [])
  {
    var query := ObjectIdQuery(t);
    var r := Probe(s, path, t, contents, answer, useCustom);
    if !s.accepts([], query) {
      QuietAfter(s, t, r, [], [query]);
    } else {
      var existing := Existing(s, t);
      var looked := Looked(s, t);
      if existing != [] {
        assert r == BlockRun(s, path, t, contents, existing, answer, useCustom, looked);
        BlockAfterQueries(s, path, t, contents, existing, answer, useCustom, looked);
      } else if s.accepts(looked, query) && !s.hasTable(t) {
        assert r == BlockRun(s, path, t, contents, existing, answer, useCustom, looked + [query]);
        BlockAfterQueries(s, path, t, contents, existing, answer, useCustom, looked + [query]);
      } else {
        assert r.1 == looked + [query];
        QuietAfter(s, t, r, [], looked + [query]);
      }
    }
  }

  /** The block after queries that begin with the existence check. */
  lemma BlockAfterQueries(s: Server, path: string, t: string, contents: Frame, existing: seq<(string, string)>,
                          answer: Option<seq<string>>, useCustom: bool, before: seq<Op>)
    requires contents.Valid()
    requires answer.Some? ==> |answer.value| == |contents.cols|
    requires |before| >= 1 && before[0] == ObjectIdQuery(t) && forall i :: 0 <= i < |before| ==> before[i].IsQuery()
    ensures var r := BlockRun(s, path, t, contents, existing, answer, useCustom, before);
            |r.1| >= 1 && r.1[0] == ObjectIdQuery(t) && WritesAfter(s, t, r, [])
  {
    BlockRunOps(s, path, t, contents, existing, answer, useCustom, before);
    QueriesBefore(s, t, BlockRun(s, path, t, contents, existing, answer, useCustom, before), before);
  }


  /** Queries ahead of the writes break none of the guarantees. */
  lemma QueriesBefore(s: Server, t: string, r: (Step, seq<Op>), before: seq<Op>)
    requires WritesAfter(s, t, r, before)
    requires forall i :: 0 <= i < |before| ==> before[i].IsQuery()
    ensures WritesAfter(s, t, r, [])
  {
    forall i | 0 <= i < |before| ensures r.1[i] == before[i] {
      assert r.1[..|before|][i] == r.1[i];
    }
  }

  /** The final commit keeps the guarantees, and comes after no single-row insert. */
  lemma FinishKeeps(s: Server, t: string, step: Step, log: seq<Op>)
    requires WritesAfter(s, t, (step, log), [])
    ensures var r := Finish(s, step, log).1;
            && |r| >= |log| && r[..|log|] == log
            && (forall i :: 0 <= i < |r| ==> !r[i].Close? && !r[i].DropTable? && !r[i].DropIfExists?)
            && (forall i :: 0 <= i < |r| && r[i].CreateTable? ==> r[i].table == t && !s.hasTable(t) && ValidTableName(t))
            && (forall i, j :: 0 <= i < j < |r| && r[i].InsertRow? ==> !r[j].Commit?)
  {
    var r := Finish(s, step, log).1;
    if step.Continue? {
      assert r == log + [Commit];
    }
  }

  /** A statement that neither writes rows nor closes nor drops: a query, a commit, or the CREATE of the missing table `t` under a valid name. */
  predicate Quiet(s: Server, t: string, op: Op) {
    op.IsQuery() || op == Commit || (op.CreateTable? && op.table == t && !s.hasTable(t) && ValidTableName(t))
  }

  /** Quiet statements after `before` keep the guarantees. */
  lemma QuietAfter(s: Server, t: string, r: (Step, seq<Op>), before: seq<Op>, quiet: seq<Op>)
    requires r.1 == before + quiet && forall i :: 0 <= i < |quiet| ==> Quiet(s, t, quiet[i])
    ensures WritesAfter(s, t, r, before)
  {
    forall i | |before| <= i < |r.1| ensures Quiet(s, t, r.1[i]) {
      assert r.1[i] == quiet[i - |before|];
    }
  }

  /** Quiet statements between `before` and the inserts keep the guarantees. */
  lemma InsertAfter(s: Server, t: string, df: Frame, before: seq<Op>, quiet: seq<Op>)
    requires df.Valid()
    requires forall i :: 0 <= i < |quiet| ==> Quiet(s, t, quiet[i])
    ensures WritesAfter(s, t, InsertRun(s, t, df, before + quiet), before)
  {
    var r := InsertRun(s, t, df, before + quiet);
    var mid := before + quiet;
    InsertRunOps(s, t, df, mid);
    assert r.1[..|before|] == mid[..|before|] == before;
    forall i | |before| <= i < |mid| ensures Quiet(s, t, r.1[i]) {
      assert r.1[i] == mid[i] == quiet[i - |before|];
    }
  }

  /**
   * A run `r` that extended `before` without closing or dropping anything,
   * created only the missing table `t` with a valid name, and stopped once it
   * fell back to single rows.
   */
  predicate WritesAfter(s: Server, t: string, r: (Step, seq<Op>), before: seq<Op>) {
    && |r.1| >= |before| && r.1[..|before|] == before
    && (forall i :: |before| <= i < |r.1| ==> !r.1[i].Close? && !r.1[i].DropTable? && !r.1[i].DropIfExists?)
    && (forall i :: |before| <= i < |r.1| && r.1[i].CreateTable? ==> r.1[i].table == t && !s.hasTable(t) && ValidTableName(t))
    && (forall i :: |before| <= i < |r.1| && r.1[i].InsertRow? ==> r.0.Stop? && forall j :: i < j < |r.1| ==> r.1[j].InsertRow?)
  }

  /** The statements `BlockRun` adds after `before`, under the same guarantees. */
  lemma BlockRunOps(s: Server, path: string, t: string, contents: Frame, existing: seq<(string, string)>,
                    answer: Option<seq<string>>, useCustom: bool, before: seq<Op>)
    requires contents.Valid()
    requires answer.Some? ==> |answer.value| == |contents.cols|
    ensures WritesAfter(s, t, BlockRun(s, path, t, contents, existing, answer, useCustom, before), before)
  {
    match ReadFile(path, None, contents)
    case None =>
    case Some(read) =>
      match Prepared(read.1)
      case None =>
      case Some(full) =>
        if !(existing != [] && answer.None?) {
          WriteRunOps(s, t, Shaped(full, existing, answer, useCustom), before);
        }
  }

  lemma WriteRunOps(s: Server, t: string, df: Frame, before: seq<Op>)
    requires df.Valid()
    ensures WritesAfter(s, t, WriteRun(s, t, df, before), before)
  {
    var r := WriteRun(s, t, df, before);
    var query := ObjectIdQuery(t);
    var create := Op.CreateTable(t, ColumnDefs(df));
    if !s.accepts(before, query) || (!s.hasTable(t) && !ValidTableName(t)) {
      QuietAfter(s, t, r, before, [query]);
    } else if s.hasTable(t) {
      InsertAfter(s, t, df, before, [query]);
    } else if !s.accepts(before + [query], create) {
      QuietAfter(s, t, r, before, [query, create]);
    } else if !s.accepts(before + [query, create], Commit) {
      assert before + [query] + [create] == before + [query, create];
      assert r.1 == before + [query] + [create, Commit] == before + [query, create, Commit];
      QuietAfter(s, t, r, before, [query, create, Commit]);
    } else {
      assert before + [query] + [create, Commit] == before + [query, create, Commit];
      InsertAfter(s, t, df, before, [query, create, Commit]);
    }
  }

  lemma InsertRunOps(s: Server, t: string, df: Frame, before: seq<Op>)
    requires df.Valid()
    ensures var r := InsertRun(s, t, df, before);
            && |r.1| >= |before| && r.1[..|before|] == before
            && (forall i :: |before| <= i < |r.1| ==> r.1[i].InsertBatch? || r.1[i].InsertRow?)
            && (forall i :: |before| <= i < |r.1| && r.1[i].InsertRow? ==> r.0.Stop? && forall j :: i < j < |r.1| ==> r.1[j].InsertRow?)
  {
  }

  /**
   * Cancelling the mapping window happens only for a table that exists and
   * has columns, once the existence check went through and the full read has
   * been cleaned, and then the run has only looked: two queries and the close.
   */
  lemma CancelWritesNothing(pathEntry: string, tableEntry: string, previewCount: nat, previewed: Frame, contents: Frame, server: Server,
                            answer: Option<seq<string>>, useCustom: bool)
    requires previewed.Valid() && contents.Valid()
    requires answer.Some? ==> |answer.value| == |contents.cols|
    ensures var r := ImportRun(pathEntry, tableEntry, previewCount, previewed, contents, server, answer, useCustom);
            var t := Strip(tableEntry);
            r.0 == Canceled <==>
              Connects(pathEntry, tableEntry, previewCount, previewed, server) && Prepared(contents).Some?
              && answer.None? && server.accepts([], ObjectIdQuery(t)) && server.hasTable(t) && server.catalog(t) != []
    ensures var r := ImportRun(pathEntry, tableEntry, previewCount, previewed, contents, server, answer, useCustom);
            var t := Strip(tableEntry);
            r.0 == Canceled ==> r.1 == [ObjectIdQuery(t), CatalogQuery(t), Op.Close]
  {
    if Connects(pathEntry, tableEntry, previewCount, previewed, server) {
      CancelConnects(pathEntry, tableEntry, previewCount, previewed, contents, server, answer, useCustom);
    } else {
      ImportRunNotConnected(pathEntry, tableEntry, previewCount, previewed, contents, server, answer, useCustom);
    }
  }

  /** `CancelWritesNothing` once the run gets as far as the connection. */
  lemma CancelConnects(pathEntry: string, tableEntry: string, previewCount: nat, previewed: Frame, contents: Frame, server: Server,
                       answer: Option<seq<string>>, useCustom: bool)
    requires previewed.Valid() && contents.Valid()
    requires answer.Some? ==> |answer.value| == |contents.cols|
    requires Connects(pathEntry, tableEntry, previewCount, previewed, server)
    ensures var r := ImportRun(pathEntry, tableEntry, previewCount, previewed, contents, server, answer, useCustom);
            var t := Strip(tableEntry);
            && (r.0 == Canceled <==>
                  Prepared(contents).Some? && answer.None? && server.accepts([], ObjectIdQuery(t)) && server.hasTable(t) && server.catalog(t) != [])
            && (r.0 == Canceled ==> r.1 == [ObjectIdQuery(t), CatalogQuery(t), Op.Close])
  {
    var path := Strip(pathEntry);
    ImportRunConnected(pathEntry, tableEntry, previewCount, previewed, contents, server, answer, useCustom);
    assert ReadFile(path, None, contents).Some? by {
      assert ReadFile(path, Some(previewCount), previewed).Some?;
    }
    ConnectedCancel(server, path, Strip(tableEntry), contents, answer, useCustom);
  }

  /**
   * The preview cleaning passing does not mean the full one will: the two
   * reads infer their types apart, so a column whose first row is missing
   * reads as floats in a one-row preview, and as objects in the full file
   * once a `True` turns up, and `.str` refuses an object column without text.
   */
  lemma PreviewCleansFullDoesNot()
    ensures var previewed := Frame(1, [Column("n", Float64, [Null])]);
            var contents := Frame(2, [Column("n", Object, [Null, Scalar("True")])]);
            && ReadFile("a.csv", Some(1), previewed).Some?
            && Prepared(ReadFile("a.csv", Some(1), previewed).value.1).Some?
            && ReadFile("a.csv", None, contents).Some? && Prepared(contents).None?
  {
    CsvExtension();
    PreviewCleans();
    FullFails();
  }

  lemma PreviewCleans()
    ensures var previewed := Frame(1, [Column("n", Float64, [Null])]);
            ReadFile("a.csv", Some(1), previewed).Some? && Prepared(ReadFile("a.csv", Some(1), previewed).value.1).Some?
  {
    var previewed := Frame(1, [Column("n", Float64, [Null])]);
    CsvExtension();
    var head := ReadFile("a.csv", Some(1), previewed).value.1;
    assert head.Names() == previewed.Names() && head.Valid();
    assert head.cols[0].cells == [Null];
    AllMissingCleans(head);
  }

  lemma FullFails()
    ensures Prepared(Frame(2, [Column("n", Object, [Null, Scalar("True")])])).None?
  {
    var contents := Frame(2, [Column("n", Object, [Null, Scalar("True")])]);
    var col := contents.cols[0];
    assert col.cells == [Null, Scalar("True")];
    assert NoStrings(col) by {
      assert !col.cells[1].Null?;
      forall i | 0 <= i < |col.cells| ensures !col.cells[i].Str? {
        assert i == 0 || i == 1;
      }
    }
    SanitizeN();
    NotPhoneN();
    StringLessFails(contents, 0);
  }

  /** A single column with every value missing cleans, whatever its name. */
  lemma AllMissingCleans(df: Frame)
    requires |df.cols| == 1 && forall i :: 0 <= i < |df.cols[0].cells| ==> df.cols[0].cells[i] == Null
    ensures Prepared(df).Some?
  {
    var r := RenameAll(df, SanitizeColumnName);
    assert r.cols[0].cells == df.cols[0].cells;
    AllMissingPasses(r);
  }

  /** An object column with a present value and no string fails the cleaning, unless its sanitised name makes it a phone column. */
  lemma StringLessFails(df: Frame, j: nat)
    requires j < |df.cols| && df.cols[j].dtype == Object && NoStrings(df.cols[j])
    requires !IsPhoneColumn(SanitizeColumnName(df.cols[j].name))
    ensures Prepared(df).None?
  {
    var r := RenameAll(df, SanitizeColumnName);
    assert r.cols[j].cells == df.cols[j].cells;
    assert !IsPhoneColumn(r.cols[j].name) && r.cols[j].dtype == Object && NoStrings(r.cols[j]);
  }

  lemma CsvExtension()
    ensures Lower(Extension("a.csv")) == ".csv"
  {
    SplitExtOfJoin("a", ".csv");
    assert "a" + ".csv" == "a.csv";
  }

  lemma SanitizeN()
    ensures SanitizeColumnName("n") == "n"
  {
    assert Replace("n", ' ', "_") == "n";
    assert Lower("n") == "n";
    assert KeepWordChars("n") == "n";
    SanitizeStages("n", "n", "n", "n");
  }

  lemma NotPhoneN()
    ensures !IsPhoneColumn("n")
  {
    assert Lower("n") == "n";
    assert !Contains("n"[1..], "tel") && !Contains("n"[1..], "phone");
  }

  /** The connected part of `CancelWritesNothing`, once the file's extension is known to be read. */
  lemma ConnectedCancel(s: Server, path: string, t: string, contents: Frame, answer: Option<seq<string>>, useCustom: bool)
    requires contents.Valid()
    requires answer.Some? ==> |answer.value| == |contents.cols|
    requires ReadFile(path, None, contents).Some?
    ensures var r := ConnectedRun(s, path, t, contents, answer, useCustom);
            r.0 == Canceled <==>
              Prepared(contents).Some? && answer.None? && s.accepts([], ObjectIdQuery(t)) && s.hasTable(t) && s.catalog(t) != []
    ensures var r := ConnectedRun(s, path, t, contents, answer, useCustom);
            r.0 == Canceled ==> r.1 == [ObjectIdQuery(t), CatalogQuery(t)]
  {
    ProbeCanceled(s, path, t, contents, answer, useCustom);
  }

  /** The block part of `ConnectedCancel`: only the cancelled window stops the block as cancelled. */
  lemma ProbeCanceled(s: Server, path: string, t: string, contents: Frame, answer: Option<seq<string>>, useCustom: bool)
    requires contents.Valid()
    requires answer.Some? ==> |answer.value| == |contents.cols|
    requires ReadFile(path, None, contents).Some?
    ensures var r := Probe(s, path, t, contents, answer, useCustom);
            r.0 == Stop(Canceled) <==>
              Prepared(contents).Some? && answer.None? && s.accepts([], ObjectIdQuery(t)) && s.hasTable(t) && s.catalog(t) != []
    ensures var r := Probe(s, path, t, contents, answer, useCustom);
            r.0 == Stop(Canceled) ==> r.1 == [ObjectIdQuery(t), CatalogQuery(t)]
  {
    var query := ObjectIdQuery(t);
    if s.accepts([], query) {
      var existing := Existing(s, t);
      var looked := Looked(s, t);
      assert existing != [] <==> s.hasTable(t) && s.catalog(t) != [];
      if existing != [] {
        BlockRunCanceled(s, path, t, contents, existing, answer, useCustom, looked);
      } else if s.accepts(looked, query) && !s.hasTable(t) {
        BlockRunCanceled(s, path, t, contents, existing, answer, useCustom, looked + [query]);
      }
    }
  }

  /** Once the file's extension is read, the block stops as cancelled exactly when the full read cleans and the window was closed over a table with columns. */
  lemma BlockRunCanceled(s: Server, path: string, t: string, contents: Frame, existing: seq<(string, string)>,
                         answer: Option<seq<string>>, useCustom: bool, before: seq<Op>)
    requires contents.Valid()
    requires answer.Some? ==> |answer.value| == |contents.cols|
    requires ReadFile(path, None, contents).Some?
    ensures var r := BlockRun(s, path, t, contents, existing, answer, useCustom, before);
            r.0 == Stop(Canceled) <==> Prepared(contents).Some? && existing != [] && answer.None?
    ensures var r := BlockRun(s, path, t, contents, existing, answer, useCustom, before);
            r.0 == Stop(Canceled) ==> r.1 == before
  {
    var read := ReadFile(path, None, contents).value;
    assert read.1 == contents;
    if Prepared(contents).Some? && !(existing != [] && answer.None?) {
      WriteRunStops(s, t, Shaped(Prepared(contents).value, existing, answer, useCustom), before);
    }
  }

  /** The writes stop only on a failure. */
  lemma WriteRunStops(s: Server, t: string, df: Frame, before: seq<Op>)
    requires df.Valid()
    ensures var r := WriteRun(s, t, df, before);
            r.0.Stop? ==> r.0.outcome.Failed?
  {
  }

  /** The window's answer matters only when the table exists and has columns. */
  lemma AnswerOnlyForExistingColumns(pathEntry: string, tableEntry: string, previewCount: nat, previewed: Frame, contents: Frame, server: Server,
                                     answer1: Option<seq<string>>, answer2: Option<seq<string>>, useCustom: bool)
    requires previewed.Valid() && contents.Valid()
    requires answer1.Some? ==> |answer1.value| == |contents.cols|
    requires answer2.Some? ==> |answer2.value| == |contents.cols|
    requires !(server.hasTable(Strip(tableEntry)) && server.catalog(Strip(tableEntry)) != [])
    ensures ImportRun(pathEntry, tableEntry, previewCount, previewed, contents, server, answer1, useCustom)
            == ImportRun(pathEntry, tableEntry, previewCount, previewed, contents, server, answer2, useCustom)
  {
    if Connects(pathEntry, tableEntry, previewCount, previewed, server) {
      ImportRunConnected(pathEntry, tableEntry, previewCount, previewed, contents, server, answer1, useCustom);
      ImportRunConnected(pathEntry, tableEntry, previewCount, previewed, contents, server, answer2, useCustom);
      ProbeIgnoresAnswer(server, Strip(pathEntry), Strip(tableEntry), contents, answer1, answer2, useCustom);
    } else {
      ImportRunSame(pathEntry, tableEntry, previewCount, previewed, contents, server, answer1, answer2, useCustom);
    }
  }

  /** Before the connection opens the answer plays no part. */
  lemma ImportRunSame(pathEntry: string, tableEntry: string, previewCount: nat, previewed: Frame, contents: Frame, server: Server,
                      answer1: Option<seq<string>>, answer2: Option<seq<string>>, useCustom: bool)
    requires previewed.Valid() && contents.Valid()
    requires answer1.Some? ==> |answer1.value| == |contents.cols|
    requires answer2.Some? ==> |answer2.value| == |contents.cols|
    requires !Connects(pathEntry, tableEntry, previewCount, previewed, server)
    ensures ImportRun(pathEntry, tableEntry, previewCount, previewed, contents, server, answer1, useCustom)
            == ImportRun(pathEntry, tableEntry, previewCount, previewed, contents, server, answer2, useCustom)
  {
  }

  lemma ProbeIgnoresAnswer(s: Server, path: string, t: string, contents: Frame,
                           answer1: Option<seq<string>>, answer2: Option<seq<string>>, useCustom: bool)
    requires contents.Valid()
    requires answer1.Some? ==> |answer1.value| == |contents.cols|
    requires answer2.Some? ==> |answer2.value| == |contents.cols|
    requires !(s.hasTable(t) && s.catalog(t) != [])
    ensures ConnectedRun(s, path, t, contents, answer1, useCustom) == ConnectedRun(s, path, t, contents, answer2, useCustom)
  {
    assert Existing(s, t) == [];
    assert Probe(s, path, t, contents, answer1, useCustom) == Probe(s, path, t, contents, answer2, useCustom);
  }

  /**
   * A table that exists but reports no columns skips the whole block: the
   * run writes nothing and fails, on the unbound `full_df` once both
   * existence checks went through, or on the check the server refused.
   */
  lemma EmptyCatalogFails(pathEntry: string, tableEntry: string, previewCount: nat, previewed: Frame, contents: Frame, server: Server,
                          answer: Option<seq<string>>, useCustom: bool)
    requires previewed.Valid() && contents.Valid()
    requires answer.Some? ==> |answer.value| == |contents.cols|
    requires Connects(pathEntry, tableEntry, previewCount, previewed, server)
    requires server.hasTable(Strip(tableEntry)) && server.catalog(Strip(tableEntry)) == []
    ensures var r := ImportRun(pathEntry, tableEntry, previewCount, previewed, contents, server, answer, useCustom);
            var t := Strip(tableEntry);
            var query := ObjectIdQuery(t);
            && r.0.Failed?
            && r.1 == (if !server.accepts([], query) then [query, Op.Close]
                       else if !server.accepts([query, CatalogQuery(t)], query) then [query, CatalogQuery(t), query, Op.Close]
                       else [query, CatalogQuery(t), query, Commit, Op.Close])
            && (r.0.why == FullFrameUnbound <==>
                  (server.accepts([], query) && server.accepts([query, CatalogQuery(t)], query)
                   && server.accepts([query, CatalogQuery(t), query], Commit)))
  {
    var t := Strip(tableEntry);
    var query := ObjectIdQuery(t);
    ImportRunConnected(pathEntry, tableEntry, previewCount, previewed, contents, server, answer, useCustom);
    ConnectedEmptyCatalog(server, Strip(pathEntry), t, contents, answer, useCustom);
    var run := ConnectedRun(server, Strip(pathEntry), t, contents, answer, useCustom);
    ClosedAfterQueries(run.1, query, CatalogQuery(t), !server.accepts([], query), !server.accepts([query, CatalogQuery(t)], query));
  }

  /** The close appended to each of the three logs a run over an empty catalog can leave. */
  lemma ClosedAfterQueries(log: seq<Op>, query: Op, catalog: Op, first: bool, second: bool)
    requires log == (if first then [query] else if second then [query, catalog, query] else [query, catalog, query, Commit])
    ensures log + [Op.Close] == (if first then [query, Op.Close]
                                 else if second then [query, catalog, query, Op.Close]
                                 else [query, catalog, query, Commit, Op.Close])
  {
    if first {
      assert [query] + [Op.Close] == [query, Op.Close];
    } else if second {
      assert [query, catalog, query] + [Op.Close] == [query, catalog, query, Op.Close];
    } else {
      assert [query, catalog, query, Commit] + [Op.Close] == [query, catalog, query, Commit, Op.Close];
    }
  }

  /** The connected part of `EmptyCatalogFails`. */
  lemma ConnectedEmptyCatalog(s: Server, path: string, t: string, contents: Frame, answer: Option<seq<string>>, useCustom: bool)
    requires contents.Valid()
    requires answer.Some? ==> |answer.value| == |contents.cols|
    requires s.hasTable(t) && s.catalog(t) == []
    ensures var r := ConnectedRun(s, path, t, contents, answer, useCustom);
            var query := ObjectIdQuery(t);
            && r.0.Failed?
            && r.1 == (if !s.accepts([], query) then [query]
                       else if !s.accepts([query, CatalogQuery(t)], query) then [query, CatalogQuery(t), query]
                       else [query, CatalogQuery(t), query, Commit])
            && (r.0.why == FullFrameUnbound <==>
                  (s.accepts([], query) && s.accepts([query, CatalogQuery(t)], query)
                   && s.accepts([query, CatalogQuery(t), query], Commit)))
  {
    var query := ObjectIdQuery(t);
    if s.accepts([], query) {
      assert Existing(s, t) == [];
      assert Looked(s, t) == [query, CatalogQuery(t)];
      assert Looked(s, t) + [query] == [query, CatalogQuery(t), query];
      if s.accepts([query, CatalogQuery(t)], query) {
        assert Probe(s, path, t, contents, answer, useCustom) == (Continue(None), [query, CatalogQuery(t), query]);
      }
    }
  }

  /** The last statement of `log` is a batch of `rows` rows into `t`, and the server accepted it. */
  predicate EndsWithBatch(s: Server, log: seq<Op>, t: string, rows: nat) {
    && |log| >= 1 && log[|log| - 1].InsertBatch? && log[|log| - 1].table == t
    && |log[|log| - 1].rows| == rows
    && s.accepts(log[..|log| - 1], log[|log| - 1])
  }

  /** `log` ends with such a batch and then a commit the server accepted. */
  predicate EndsWithCommittedBatch(s: Server, log: seq<Op>, t: string, rows: nat) {
    && |log| >= 1 && log[|log| - 1] == Commit && s.accepts(log[..|log| - 1], Commit)
    && EndsWithBatch(s, log[..|log| - 1], t, rows)
  }

  /** An accepted commit right after an accepted batch. */
  lemma CommitAfterBatch(s: Server, log: seq<Op>, t: string, rows: nat)
    requires EndsWithBatch(s, log, t, rows) && s.accepts(log, Commit)
    ensures EndsWithCommittedBatch(s, log + [Commit], t, rows)
  {
    assert (log + [Commit])[..|log|] == log;
  }

  /**
   * A reported import inserted every row of the file in one accepted batch,
   * into the table as typed, and committed it: the last three statements are
   * that batch, the commit and the close.
   */
  lemma ImportedMeansCommitted(pathEntry: string, tableEntry: string, previewCount: nat, previewed: Frame, contents: Frame, server: Server,
                               answer: Option<seq<string>>, useCustom: bool)
    requires previewed.Valid() && contents.Valid()
    requires answer.Some? ==> |answer.value| == |contents.cols|
    ensures var r := ImportRun(pathEntry, tableEntry, previewCount, previewed, contents, server, answer, useCustom);
            r.0.Imported? ==>
              && r.0.rows == contents.nrows
              && |r.1| >= 1 && r.1[|r.1| - 1] == Op.Close
              && EndsWithCommittedBatch(server, r.1[..|r.1| - 1], Strip(tableEntry), contents.nrows)
  {
    ImportRunSplit(pathEntry, tableEntry, previewCount, previewed, contents, server, answer, useCustom);
    var r := ImportRun(pathEntry, tableEntry, previewCount, previewed, contents, server, answer, useCustom);
    if r.0.Imported? {
      var run := ConnectedRun(server, Strip(pathEntry), Strip(tableEntry), contents, answer, useCustom);
      ConnectedRunImported(server, Strip(pathEntry), Strip(tableEntry), contents, answer, useCustom);
      AppendLast(run.1, Op.Close);
    }
  }

  /** The connected part of `ImportedMeansCommitted`. */
  lemma ConnectedRunImported(s: Server, path: string, t: string, contents: Frame, answer: Option<seq<string>>, useCustom: bool)
    requires contents.Valid()
    requires answer.Some? ==> |answer.value| == |contents.cols|
    ensures var r := ConnectedRun(s, path, t, contents, answer, useCustom);
            r.0.Imported? ==> r.0.rows == contents.nrows && EndsWithCommittedBatch(s, r.1, t, contents.nrows)
  {
    var block := Probe(s, path, t, contents, answer, useCustom);
    FinishImported(s, block.0, block.1);
    ProbeImported(s, path, t, contents, answer, useCustom);
    if block.0.Continue? && block.0.full.Some? && s.accepts(block.1, Commit) {
      CommitAfterBatch(s, block.1, t, contents.nrows);
    }
  }

  /** The block part of `ConnectedRunImported`: a bound `full_df` comes with its accepted batch. */
  lemma ProbeImported(s: Server, path: string, t: string, contents: Frame, answer: Option<seq<string>>, useCustom: bool)
    requires contents.Valid()
    requires answer.Some? ==> |answer.value| == |contents.cols|
    ensures var r := Probe(s, path, t, contents, answer, useCustom);
            && (r.0.Stop? ==> !r.0.outcome.Imported?)
            && (r.0.Continue? && r.0.full.Some? ==>
                  r.0.full.value.nrows == contents.nrows && EndsWithBatch(s, r.1, t, contents.nrows))
  {
    var query := ObjectIdQuery(t);
    if s.accepts([], query) {
      var existing := Existing(s, t);
      var looked := Looked(s, t);
      if existing != [] {
        BlockRunContinues(s, path, t, contents, existing, answer, useCustom, looked);
        BlockRunStops(s, path, t, contents, existing, answer, useCustom, looked);
      } else if s.accepts(looked, query) && !s.hasTable(t) {
        BlockRunContinues(s, path, t, contents, existing, answer, useCustom, looked + [query]);
        BlockRunStops(s, path, t, contents, existing, answer, useCustom, looked + [query]);
      }
    }
  }

  /** A final report of imported rows follows a block that bound `full_df` and an accepted commit. */
  lemma FinishImported(s: Server, step: Step, log: seq<Op>)
    ensures var r := Finish(s, step, log);
            r.0.Imported? ==>
              (step.Stop? && r == (step.outcome, log))
              || (&& step.Continue? && step.full.Some? && r.0.rows == step.full.value.nrows
                  && r.1 == log + [Commit] && s.accepts(log, Commit))
  {
  }

  /** Appending one statement leaves the earlier ones where they were. */
  lemma AppendLast(a: seq<Op>, x: Op)
    ensures |a + [x]| == |a| + 1 && (a + [x])[|a|] == x && (a + [x])[..|a|] == a
  {
  }

  /** When the block carries on, `full_df` holds every row of the file and the last statement is its accepted batch. */
  lemma BlockRunContinues(s: Server, path: string, t: string, contents: Frame, existing: seq<(string, string)>,
                          answer: Option<seq<string>>, useCustom: bool, before: seq<Op>)
    requires contents.Valid()
    requires answer.Some? ==> |answer.value| == |contents.cols|
    ensures var r := BlockRun(s, path, t, contents, existing, answer, useCustom, before);
            r.0.Continue? ==>
              r.0.full.Some? && r.0.full.value.nrows == contents.nrows && EndsWithBatch(s, r.1, t, contents.nrows)
  {
    match ReadFile(path, None, contents)
    case None =>
    case Some(read) =>
      match Prepared(read.1)
      case None =>
      case Some(full) =>
        if !(existing != [] && answer.None?) {
          WriteRunContinues(s, t, Shaped(full, existing, answer, useCustom), before);
        }
  }

  /** The block stops only on a failure or a cancelled window, never with a success report. */
  lemma BlockRunStops(s: Server, path: string, t: string, contents: Frame, existing: seq<(string, string)>,
                      answer: Option<seq<string>>, useCustom: bool, before: seq<Op>)
    requires contents.Valid()
    requires answer.Some? ==> |answer.value| == |contents.cols|
    ensures var r := BlockRun(s, path, t, contents, existing, answer, useCustom, before);
            r.0.Stop? ==> r.0.outcome.Failed? || r.0.outcome == Canceled
  {
    match ReadFile(path, None, contents)
    case None =>
    case Some(read) =>
      match Prepared(read.1)
      case None =>
      case Some(full) =>
        if !(existing != [] && answer.None?) {
          WriteRunStops(s, t, Shaped(full, existing, answer, useCustom), before);
        }
  }

  /** When the writes carry on, the last statement sent is the accepted batch of the frame's rows. */
  lemma WriteRunContinues(s: Server, t: string, df: Frame, before: seq<Op>)
    requires df.Valid()
    ensures var r := WriteRun(s, t, df, before);
            r.0.Continue? ==>
              && r.0 == Continue(Some(df))
              && |r.1| >= 1 && r.1[|r.1| - 1] == InsertBatch(t, df.Names(), df.Rows())
              && EndsWithBatch(s, r.1, t, df.nrows)
  {
    var r := WriteRun(s, t, df, before);
    if r.0.Continue? {
      var checked := before + [ObjectIdQuery(t)];
      var pre := if s.hasTable(t) then checked else checked + [Op.CreateTable(t, ColumnDefs(df)), Commit];
      assert r == InsertRun(s, t, df, pre);
      AppendLast(pre, InsertBatch(t, df.Names(), df.Rows()));
    }
  }
}
