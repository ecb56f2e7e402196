/**
 * The second GUI draft (`improved_importing.py`): a different header
 * sanitiser, every column stored as NVARCHAR(MAX), a cleaning pass that
 * turns every cell into trimmed text, and an import that always drops and
 * recreates the target table before inserting.
 */
module Improved {
  import opened Strings
  import opened Frames
  import opened Paths
  import opened Sql
  import opened Custom
  import Importer

  // -------------------------------------------------------------- sanitiser

  /** Characters the sanitiser removes or replaces. */
  predicate Rewritten(c: char) {
    c == ' ' || c == '.' || c == ';' || c == '-' || c == ':'
  }

  /**
   * `sanitize_column_name`: trim, delete spaces, turn `.`, `;` and `-` into
   * `_`, delete `:`, lowercase. Every other character is kept.
   */
  function SanitizeColumnName(col: string): (r: string)
    ensures forall x :: x in r ==> !Rewritten(x) && !('A' <= x <= 'Z')
    ensures forall x :: x in r ==> x in col || x == '_' || ('a' <= x <= 'z')
  {
    var s := Rewrite(Strip(col));
    LowerChars(s);
    forall x | x in s
      ensures x in col || x == '_'
    {
      if x != '_' {
        StripChars(col, x);
      }
    }
    Lower(s)
  }

  /** The five `replace` calls, in their order. */
  function Rewrite(s: string): (r: string)
    ensures forall x :: x in r ==> !Rewritten(x) && (x in s || x == '_')
  {
    Replace(Replace(Replace(Replace(Replace(s, ' ', ""), '.', "_"), ';', "_"), '-', "_"), ':', "")
  }

  /** Sanitising a sanitised name changes nothing, as long as the only whitespace in the original is the plain space. */
  lemma SanitizeIdempotent(col: string)
    requires forall x :: x in col && IsSpace(x) ==> x == ' '
    ensures SanitizeColumnName(SanitizeColumnName(col)) == SanitizeColumnName(col)
  {
    var r := SanitizeColumnName(col);
    assert NoSpace(r) by {
      forall i | 0 <= i < |r|
        ensures !IsSpace(r[i])
      {
        assert r[i] in r;
      }
    }
    StripNoSpace(r);
    RewriteFixes(r);
    LowerOfLower(r);
    SanitizeStages(r, r, r);
  }

  /** A string with none of the rewritten characters comes out of the five `replace` calls unchanged. */
  lemma RewriteFixes(s: string)
    requires forall x :: x in s ==> !Rewritten(x)
    ensures Rewrite(s) == s
  {
    FirstFourReplacesAbsent(s);
    assert ':' !in s;
  }

  /** The three stages of the sanitiser, one after the other. */
  lemma SanitizeStages(col: string, stripped: string, rewritten: string)
    requires Strip(col) == stripped && Rewrite(stripped) == rewritten
    ensures SanitizeColumnName(col) == Lower(rewritten)
  {
  }

  /** A string with none of `.`, `;`, `-` and space comes out of the four first `replace` calls unchanged. */
  lemma FirstFourReplacesAbsent(s: string)
    requires ' ' !in s && '.' !in s && ';' !in s && '-' !in s
    ensures Replace(Replace(Replace(Replace(s, ' ', ""), '.', "_"), ';', "_"), '-', "_") == s
  {
    var s1 := Replace(s, ' ', "");
    assert s1 == s;
    var s2 := Replace(s1, '.', "_");
    assert s2 == s;
    var s3 := Replace(s2, ';', "_");
    assert s3 == s;
  }

  /** Without that condition it is not: a tab behind a removed colon is only trimmed the second time. */
  lemma SanitizeNotIdempotent()
    ensures SanitizeColumnName(":\ta") == "\ta"
    ensures SanitizeColumnName("\ta") == "a"
  {
    TabExampleFirst();
    TabExampleSecond();
  }

  lemma TabExampleFirst()
    ensures SanitizeColumnName(":\ta") == "\ta"
  {
    TabExampleStrip();
    TabExampleRewrite();
    SanitizeStages(":\ta", ":\ta", "\ta");
    TabExampleLower();
  }

  lemma TabExampleLower()
    ensures Lower("\ta") == "\ta"
  {
    LowerOfLower("\ta");
  }

  lemma TabExampleStrip()
    ensures Strip(":\ta") == ":\ta"
  {
    StripOfStripped(":\ta");
  }

  lemma TabExampleRewrite()
    ensures Rewrite(":\ta") == "\ta"
  {
    FirstFourReplacesAbsent(":\ta");
    TabExampleColon();
  }

  lemma TabExampleColon()
    ensures Replace(":\ta", ':', "") == "\ta"
  {
    ReplaceOneAt(":\ta", [], ':', "\ta", "", "\ta");
  }

  lemma TabExampleSecond()
    ensures SanitizeColumnName("\ta") == "a"
  {
    TabExampleTrim();
    TabExampleRewriteA();
    SanitizeStages("\ta", "a", "a");
    LowerOfLower("a");
  }

  lemma TabExampleRewriteA()
    ensures Rewrite("a") == "a"
  {
    FirstFourReplacesAbsent("a");
  }

  lemma TabExampleTrim()
    ensures Strip("\ta") == "a"
  {
    assert LeadingSpaces("\ta"[1..]) == 0;
    assert LeadingSpaces("\ta") == 1;
    assert "\ta"[1..] == "a";
    StripNoSpace("a");
  }

  /** `.`, `;` and `-` become underscores where the first draft deletes them: "E-Mail;" gives "e_mail_". */
  lemma SanitizePunctuationExample()
    ensures SanitizeColumnName("E-Mail;") == "e_mail_"
  {
    PunctuationExampleStages();
    PunctuationExampleLower();
  }

  lemma PunctuationExampleStages()
    ensures SanitizeColumnName("E-Mail;") == Lower("E_Mail_")
  {
    PunctuationExampleRewrite();
    PunctuationExampleStripped();
    SanitizeStripped("E-Mail;", "E_Mail_");
  }

  lemma PunctuationExampleStripped()
    ensures IsStripped("E-Mail;")
  {
  }

  /** For a name with nothing to trim the sanitiser is the five `replace` calls and the lowercasing. */
  lemma SanitizeStripped(col: string, rewritten: string)
    requires IsStripped(col) && Rewrite(col) == rewritten
    ensures SanitizeColumnName(col) == Lower(rewritten)
  {
    StripOfStripped(col);
  }

  lemma PunctuationExampleRewrite()
    ensures Rewrite("E-Mail;") == "E_Mail_"
  {
    PunctuationExampleNoSpaceNoDot();
    PunctuationExampleSemicolon();
    PunctuationExampleHyphen();
    PunctuationExampleNoColon();
    RewriteStages("E-Mail;", "E-Mail;", "E-Mail;", "E-Mail_", "E_Mail_", "E_Mail_");
  }

  lemma PunctuationExampleNoSpaceNoDot()
    ensures Replace("E-Mail;", ' ', "") == "E-Mail;"
    ensures Replace("E-Mail;", '.', "_") == "E-Mail;"
  {
    assert ' ' !in "E-Mail;" && '.' !in "E-Mail;";
  }

  lemma PunctuationExampleNoColon()
    ensures Replace("E_Mail_", ':', "") == "E_Mail_"
  {
    assert ':' !in "E_Mail_";
  }

  /** The five `replace` calls, one after the other. */
  lemma RewriteStages(s: string, s1: string, s2: string, s3: string, s4: string, s5: string)
    requires Replace(s, ' ', "") == s1 && Replace(s1, '.', "_") == s2 && Replace(s2, ';', "_") == s3
    requires Replace(s3, '-', "_") == s4 && Replace(s4, ':', "") == s5
    ensures Rewrite(s) == s5
  {
  }

  lemma PunctuationExampleSemicolon()
    ensures Replace("E-Mail;", ';', "_") == "E-Mail_"
  {
    ReplaceOneAt("E-Mail;", "E-Mail", ';', "", "_", "E-Mail_");
  }

  lemma PunctuationExampleHyphen()
    ensures Replace("E-Mail_", '-', "_") == "E_Mail_"
  {
    ReplaceOneAt("E-Mail_", "E", '-', "Mail_", "_", "E_Mail_");
  }

  lemma PunctuationExampleLower()
    ensures Lower("E_Mail_") == "e_mail_"
  {
  }

  // ---------------------------------------------------------------- cleaning

  /** `str(x).strip() if pd.notnull(x) else None`: a present value becomes its trimmed text. */
  function TextCell(c: Cell): (r: Cell)
    ensures r.Null? <==> c.Null?
    ensures r.Str? ==> IsStripped(r.s)
    ensures c.Str? ==> r == Str(Strip(c.s))
  {
    if c.Null? then Null else Str(Strip(Show(c)))
  }

  /** Every cell of the frame is missing or trimmed text. */
  predicate AllText(df: Frame) {
    forall j, i :: 0 <= j < |df.cols| && 0 <= i < |df.cols[j].cells| ==>
      df.cols[j].cells[i].Null? || (df.cols[j].cells[i].Str? && IsStripped(df.cols[j].cells[i].s))
  }

  /** `applymap` of that function over one column; the column becomes an object column. */
  function TextColumn(col: Column): (r: Column)
    ensures r.name == col.name && r.dtype == Object && |r.cells| == |col.cells|
    ensures forall i :: 0 <= i < |col.cells| ==> r.cells[i] == TextCell(col.cells[i])
  {
    Column(col.name, Object, seq(|col.cells|, i requires 0 <= i < |col.cells| => TextCell(col.cells[i])))
  }

  /** `df.applymap(lambda x: str(x).strip() if pd.notnull(x) else None)` */
  function ApplyMap(df: Frame): (r: Frame)
    ensures r.nrows == df.nrows && r.Names() == df.Names()
    ensures df.Valid() ==> r.Valid()
    ensures AllText(r)
    ensures forall j :: 0 <= j < |df.cols| ==> r.cols[j] == TextColumn(df.cols[j])
  {
    Frame(df.nrows, seq(|df.cols|, j requires 0 <= j < |df.cols| => TextColumn(df.cols[j])))
  }

  /**
   * `df[col].str` fails when `col` labels several columns: here only the
   * phone pass uses `.str`, so only a shared phone-column name raises.
   */
  predicate CleanFails(df: Frame) {
    exists j :: 0 <= j < |df.cols| && Importer.IsPhoneColumn(df.cols[j].name) && Importer.SharedName(df.cols, j)
  }

  /**
   * One column after `clean_dataframe`: a phone column holds only text (a
   * missing value shows as `None`) with any `ph:` prefix removed and trimmed;
   * any other column has its present values turned into trimmed text.
   */
  function CleanColumn(col: Column): (r: Column)
    ensures r.name == col.name && r.dtype == Object && |r.cells| == |col.cells|
    ensures Importer.IsPhoneColumn(col.name) ==>
              forall i :: 0 <= i < |col.cells| ==> r.cells[i] == Importer.PhoneCell(col.cells[i]) && r.cells[i].Str?
    ensures !Importer.IsPhoneColumn(col.name) ==>
              forall i :: 0 <= i < |col.cells| ==> r.cells[i] == TextCell(col.cells[i])
  {
    var p := Importer.PhonePass(col);
    assert Importer.IsPhoneColumn(col.name) ==> forall i :: 0 <= i < |col.cells| ==> TextCell(p.cells[i]) == p.cells[i] by {
      if Importer.IsPhoneColumn(col.name) {
        forall i | 0 <= i < |col.cells|
          ensures TextCell(p.cells[i]) == p.cells[i]
        {
          StripIdempotent(Importer.DropPhPrefix(Show(col.cells[i])));
        }
      }
    }
    TextColumn(p)
  }

  /** `clean_dataframe`: `None` when it raises; otherwise every column cleaned, names and row count unchanged. */
  function Cleaned(df: Frame): (r: Option<Frame>)
    ensures r.None? <==> CleanFails(df)
    ensures r.Some? ==> r.value.nrows == df.nrows && r.value.Names() == df.Names()
    ensures r.Some? && df.Valid() ==> r.value.Valid()
  {
    if CleanFails(df) then None
    else Some(Frame(df.nrows, seq(|df.cols|, j requires 0 <= j < |df.cols| => CleanColumn(df.cols[j]))))
  }

  /** After cleaning, every cell is missing or trimmed text, and no phone column has a missing cell. */
  lemma CleanedIsText(df: Frame)
    requires Cleaned(df).Some?
    ensures AllText(Cleaned(df).value)
    ensures var r := Cleaned(df).value;
            forall j, i :: 0 <= j < |r.cols| && Importer.IsPhoneColumn(r.cols[j].name) && 0 <= i < |r.cols[j].cells| ==>
              r.cols[j].cells[i].Str?
  {
    var r := Cleaned(df).value;
    forall j, i | 0 <= j < |r.cols| && 0 <= i < |r.cols[j].cells|
      ensures r.cols[j].cells[i].Null? || (r.cols[j].cells[i].Str? && IsStripped(r.cols[j].cells[i].s))
    {
      var c := df.cols[j];
      assert r.cols[j] == CleanColumn(c);
      if Importer.IsPhoneColumn(c.name) {
        assert r.cols[j].cells[i] == Importer.PhoneCell(c.cells[i]);
      } else {
        assert r.cols[j].cells[i] == TextCell(c.cells[i]);
      }
    }
  }

  /**
   * This cleaning raises on fewer frames than the first draft's: a shared
   * name only matters on a phone column, whatever the column's type, and an
   * object column without strings is turned into text rather than refused.
   */
  lemma CleanFailsLessOften(df: Frame)
    ensures CleanFails(df) ==> Importer.CleanFails(df)
    ensures Importer.CleanFails(df) && !CleanFails(df) ==>
              exists j :: 0 <= j < |df.cols| && df.cols[j].dtype == Object &&
                (Importer.SharedName(df.cols, j) || Importer.NoStrings(df.cols[j]))
  {
  }

  /**
   * `clean_dataframe` as the source runs it: the phone columns reassigned one
   * by one, then the `applymap` over the whole frame.
   */
  method CleanDataframe(df: Frame) returns (r: Option<Frame>)
    ensures r == Cleaned(df)
  {
    var cols := df.cols;
    var j := 0;
    while j < |cols|
      invariant 0 <= j <= |cols| && |cols| == |df.cols|
      invariant forall m :: 0 <= m < |cols| ==> cols[m].name == df.cols[m].name
      invariant forall m :: 0 <= m < j ==> cols[m] == Importer.PhonePass(df.cols[m])
      invariant forall m :: j <= m < |cols| ==> cols[m] == df.cols[m]
      invariant forall m :: 0 <= m < j ==> !(Importer.IsPhoneColumn(df.cols[m].name) && Importer.SharedName(df.cols, m))
    {
      if Importer.IsPhoneColumn(cols[j].name) {
        var shared := Importer.Shared(cols, j);
        if shared {
          assert Importer.SharedName(df.cols, j);
          return None;
        }
        cols := cols[j := Importer.PhonePass(cols[j])];
      }
      j := j + 1;
    }
    var mapped := ApplyMap(Frame(df.nrows, cols));
    assert mapped.cols == seq(|df.cols|, m requires 0 <= m < |df.cols| => CleanColumn(df.cols[m]));
    r := Some(mapped);
  }

  // ---------------------------------------------------------- custom schema

  /**
   * `map_custom_columns`: rename the known headers, keep the custom-schema
   * columns present in schema order, and turn every present value into
   * trimmed text.
   */
  function MapCustomColumns(df: Frame): (r: Frame)
    ensures r.nrows == df.nrows && AllText(r)
    ensures forall k :: k in r.Names() <==> k in CustomNames() && k in Rename(df, ExcelToCustom).Names()
    ensures df.Valid() ==> r.Valid()
  {
    var renamed := Rename(df, ExcelToCustom);
    var kept := Select(renamed, Present(CustomNames(), renamed.Names()));
    assert forall k :: k in kept.Names() <==> k in CustomNames() && k in renamed.Names() by {
      forall k
        ensures k in kept.Names() <==> k in CustomNames() && k in renamed.Names()
      {
        if k in kept.Names() {
          var j :| 0 <= j < |kept.cols| && kept.Names()[j] == k;
          assert kept.cols[j] in kept.cols;
        }
        if k in CustomNames() && k in renamed.Names() {
          var j :| 0 <= j < |renamed.cols| && renamed.Names()[j] == k;
          assert renamed.cols[j] in renamed.cols;
          var m :| 0 <= m < |kept.cols| && kept.cols[m] == renamed.cols[j];
          assert kept.Names()[m] == k;
        }
      }
    }
    ApplyMap(kept)
  }

  /** The same columns as the first draft's `map_custom_columns`, with the values as text. */
  lemma MapCustomAgrees(df: Frame)
    ensures MapCustomColumns(df) == ApplyMap(Importer.MapCustomColumns(df))
  {
    RenameRestricted(df, ExcelToCustom);
  }

  // ---------------------------------------------------------------- reading

  /**
   * `read_file`: dispatch on the lowercased extension; `.xls` goes to
   * openpyxl like `.xlsx`; `None` for any other extension (the ValueError).
   */
  function ReadFile(path: string, contents: Frame): (r: Option<(Reader, Frame)>)
    ensures r.None? <==> Lower(Extension(path)) !in {".csv", ".xlsx", ".xls"}
    ensures r.Some? ==> r.value.1 == contents
    ensures r.Some? ==> (r.value.0 == Csv <==> Lower(Extension(path)) == ".csv")
    ensures r.Some? ==> r.value.0 != Xlrd
  {
    var ext := Lower(Extension(path));
    if ext == ".csv" then Some((Csv, contents))
    else if ext == ".xlsx" || ext == ".xls" then Some((Openpyxl, contents))
    else None
  }

  /** The same files are accepted as by the first draft's reader; only `.xls` is handed to a different engine. */
  lemma ReadFileAgrees(path: string, contents: Frame)
    requires contents.Valid()
    ensures ReadFile(path, contents).None? <==> Importer.ReadFile(path, None, contents).None?
    ensures var a := ReadFile(path, contents);
            var b := Importer.ReadFile(path, None, contents);
            a.Some? ==> a.value.1 == b.value.1 && (a.value.0 == b.value.0 <==> Lower(Extension(path)) != ".xls")
  {
  }

  // ---------------------------------------------------------- CREATE TABLE

  /** `map_dtype_to_sql`: every column is NVARCHAR(MAX), whatever its data. */
  const NVarcharMax := "NVARCHAR(MAX)"

  /** The column definitions `create_table_force` writes: the custom schema, or one NVARCHAR(MAX) column per frame column. */
  function TableDefs(df: Frame, useCustom: bool): (r: seq<ColumnDef>)
    ensures useCustom ==> r == CustomColumns
    ensures !useCustom ==> |r| == |df.cols| && forall j :: 0 <= j < |r| ==> r[j] == ColumnDef(df.cols[j].name, NVarcharMax)
  {
    if useCustom then CustomColumns
    else seq(|df.cols|, j requires 0 <= j < |df.cols| => ColumnDef(df.cols[j].name, NVarcharMax))
  }

  /** The CREATE TABLE text reads back as the table and the definitions it was made from. */
  lemma TableDefsRoundTrip(t: string, df: Frame, useCustom: bool)
    requires ']' !in t
    requires !useCustom ==> forall j :: 0 <= j < |df.cols| ==> ']' !in df.cols[j].name
    ensures ParseCreate(CreateText(t, TableDefs(df, useCustom))) == Some((t, TableDefs(df, useCustom)))
  {
    var defs := TableDefs(df, useCustom);
    if useCustom {
      CustomColumnsPlain();
    }
    CreateTextRoundTrip(t, defs);
  }

  /** What `create_table_force` sends when nothing is refused. */
  function ForceOps(t: string, df: Frame, useCustom: bool): seq<Op> {
    [DropIfExists(t), Commit, CreateTable(t, TableDefs(df, useCustom)), Commit]
  }

  /**
   * `create_table_force` from the statements sent before it: drop the table
   * if it exists, commit, create it, commit; the first statement the server
   * refuses raises.
   */
  function ForceRun(s: Server, before: seq<Op>, t: string, df: Frame, useCustom: bool): (r: (Status, seq<Op>))
    ensures r.0.Raised? ==> r.0.why.Rejected?
    ensures r.0.Done? ==> r.1 == before + ForceOps(t, df, useCustom)
    ensures |before| < |r.1| <= |before| + 4 && r.1 == before + ForceOps(t, df, useCustom)[..|r.1| - |before|]
    ensures r.0.Raised? ==> r.0.why.op == r.1[|r.1| - 1] && !s.accepts(r.1[..|r.1| - 1], r.1[|r.1| - 1])
  {
    var create := CreateTable(t, TableDefs(df, useCustom));
    var l1 := before + [DropIfExists(t)];
    var l2 := l1 + [Commit];
    var l3 := l2 + [create];
    var l4 := l3 + [Commit];
    var ops := ForceOps(t, df, useCustom);
    assert l1 == before + ops[..1] && l2 == before + ops[..2] && l3 == before + ops[..3] && l4 == before + ops[..4];
    if !s.accepts(before, DropIfExists(t)) then (Raised(Rejected(DropIfExists(t))), l1)
    else if !s.accepts(l1, Commit) then (Raised(Rejected(Commit)), l2)
    else if !s.accepts(l2, create) then (Raised(Rejected(create)), l3)
    else if !s.accepts(l3, Commit) then (Raised(Rejected(Commit)), l4)
    else (Done, l4)
  }

  /** Each statement of `create_table_force` is sent only once the server accepted the ones before it, and it finishes exactly when all four are accepted. */
  lemma ForceRunAccepted(s: Server, before: seq<Op>, t: string, df: Frame, useCustom: bool)
    ensures var r := ForceRun(s, before, t, df, useCustom);
            var ops := ForceOps(t, df, useCustom);
            && (forall i :: 0 <= i < |r.1| - |before| - 1 ==> s.accepts(before + ops[..i], ops[i]))
            && (r.0.Done? <==> AcceptedAfter(s, before, ops))
  {
    var ops := ForceOps(t, df, useCustom);
    assert before + ops[..0] == before;
    assert before + ops[..1] == before + [ops[0]];
    assert before + ops[..2] == before + [ops[0]] + [ops[1]];
    assert before + ops[..3] == before + [ops[0]] + [ops[1]] + [ops[2]];
  }

  /** `create_table_force` on an open connection. */
  method CreateTableForce(conn: Connection, t: string, df: Frame, useCustom: bool) returns (status: Status)
    modifies conn
    ensures (status, conn.log) == ForceRun(conn.server, old(conn.log), t, df, useCustom)
  {
    var ok := conn.Execute(DropIfExists(t));
    if !ok {
      return Raised(Rejected(DropIfExists(t)));
    }
    ok := conn.Execute(Commit);
    if !ok {
      return Raised(Rejected(Commit));
    }
    var create := Op.CreateTable(t, TableDefs(df, useCustom));
    ok := conn.Execute(create);
    if !ok {
      return Raised(Rejected(create));
    }
    ok := conn.Execute(Commit);
    status := if ok then Done else Raised(Rejected(Commit));
  }

  // ------------------------------------------------------------ import_data

  /** The frame `import_data` writes: headers sanitised, data cleaned, then mapped onto the custom schema when that is on; `None` when cleaning raises. */
  function Prepared(read: Frame, useCustom: bool): (r: Option<Frame>)
    ensures r.None? <==> CleanFails(RenameAll(read, SanitizeColumnName))
    ensures r.Some? && read.Valid() ==> r.value.Valid() && r.value.nrows == read.nrows
    ensures r.Some? && !useCustom ==> |r.value.cols| == |read.cols|
  {
    match Cleaned(RenameAll(read, SanitizeColumnName))
    case None => None
    case Some(df) => Some(if useCustom then MapCustomColumns(df) else df)
  }

  /** The statements an import sends on the connection when nothing is refused, before the close. */
  function WriteOps(t: string, df: Frame, useCustom: bool): seq<Op>
    requires df.Valid()
  {
    ForceOps(t, df, useCustom) + [InsertBatch(t, df.Names(), df.Rows()), Commit]
  }

  /**
   * The Import button: `pathEntry` and `tableEntry` are the texts of the two
   * entries, `contents` what pandas reads from the file, `server` the
   * database behind the connection string and `useCustom` the
   * `USE_CUSTOM_COLUMNS` switch. The result is what the user is told and
   * every statement sent, in order. The cursor and the connection are closed
   * in `finally` only when the connection was made.
   */
  function ImportRun(pathEntry: string, tableEntry: string, contents: Frame, server: Server, useCustom: bool): (r: (Outcome, seq<Op>))
    requires contents.Valid()
  {
    var path := Strip(pathEntry);
    var t := Strip(tableEntry);
    if path == [] || t == [] then (MissingInfo, [])
    else match ReadFile(path, contents)
      case None => (Failed(UnsupportedFormat), [])
      case Some(read) =>
        match Prepared(read.1, useCustom)
        case None => (Failed(CleaningFailed), [])
        case Some(df) =>
          if !server.reachable then (Failed(ConnectFailed), [])
          else
            var run := ConnectedRun(server, t, df, useCustom);
            (run.0, run.1 + [Op.Close])
  }

  /** From the connection to the final commit: force-create the table, insert, commit. */
  function ConnectedRun(s: Server, t: string, df: Frame, useCustom: bool): (r: (Outcome, seq<Op>))
    requires df.Valid()
    ensures r.0.Imported? || r.0.Failed?
    ensures r.0.Failed? ==> r.0.why.Rejected? || r.0.why.BatchRejected?
    ensures |r.1| >= 1 && r.1[0] == DropIfExists(t)
  {
    var force := ForceRun(s, [], t, df, useCustom);
    if force.0.Raised? then (Failed(force.0.why), force.1)
    else InsertRun(s, force.1, t, df)
  }

  /**
   * `insert_data` and the commit after it: a refused batch falls back to
   * single rows and then raises the batch error, so nothing after it is
   * committed; an accepted batch is committed.
   */
  function InsertRun(s: Server, before: seq<Op>, t: string, df: Frame): (r: (Outcome, seq<Op>))
    requires df.Valid()
    ensures r.0.Imported? || r.0.Failed?
    ensures r.0.Failed? ==> r.0.why == Rejected(Commit) || r.0.why.BatchRejected?
    ensures |r.1| > |before| && r.1[..|before|] == before && r.1[|before|] == InsertBatch(t, df.Names(), df.Rows())
    ensures r.0.Imported? ==> r.0.rows == df.nrows && r.1 == before + [InsertBatch(t, df.Names(), df.Rows()), Commit]
  {
    var batch := InsertBatch(t, df.Names(), df.Rows());
    var l := before + [batch];
    if !s.accepts(before, batch) then
      (Failed(BatchRejected(FailedRows(s.accepts, l, t, df.Names(), df.Rows(), df.nrows))), l + RowInserts(t, df.Names(), df.Rows()))
    else if !s.accepts(l, Commit) then (Failed(Rejected(Commit)), l + [Commit])
    else (Imported(df.nrows), l + [Commit])
  }

  /** `import_data`, on the model of the connection. */
  method ImportData(pathEntry: string, tableEntry: string, contents: Frame, server: Server, useCustom: bool)
    returns (outcome: Outcome, log: seq<Op>)
    requires contents.Valid()
    ensures (outcome, log) == ImportRun(pathEntry, tableEntry, contents, server, useCustom)
  {
    var path := Strip(pathEntry);
    var t := Strip(tableEntry);
    if path == [] || t == [] {
      return MissingInfo, [];
    }
    var read := ReadFile(path, contents);
    if read.None? {
      return Failed(UnsupportedFormat), [];
    }
    var cleaned := CleanDataframe(RenameAll(read.value.1, SanitizeColumnName));
    if cleaned.None? {
      return Failed(CleaningFailed), [];
    }
    var df := cleaned.value;
    if useCustom {
      df := MapCustomColumns(df);
    }
    if !server.reachable {
      return Failed(ConnectFailed), [];
    }
    var conn := new Connection(server);
    outcome := ImportConnected(conn, t, df, useCustom);
    conn.Close();
    log := conn.log;
  }

  /** The `try` block of `import_data` once the connection is open. */
  method ImportConnected(conn: Connection, t: string, df: Frame, useCustom: bool) returns (outcome: Outcome)
    requires conn.log == [] && df.Valid()
    modifies conn
    ensures (outcome, conn.log) == ConnectedRun(conn.server, t, df, useCustom)
  {
    var status := CreateTableForce(conn, t, df, useCustom);
    if status.Raised? {
      return Failed(status.why);
    }
    var ok, failed := InsertWithFallback(conn, t, df);
    if !ok {
      return Failed(BatchRejected(failed));
    }
    var committed := conn.Execute(Commit);
    outcome := if committed then Imported(df.nrows) else Failed(Rejected(Commit));
  }

  // -------------------------------------------------------------- properties

  /** The insert stage adds a batch, then either single-row inserts (and fails) or one commit; never a CREATE or a close. */
  lemma InsertRunOps(s: Server, before: seq<Op>, t: string, df: Frame)
    requires df.Valid()
    ensures var r := InsertRun(s, before, t, df);
            && (forall i :: |before| <= i < |r.1| ==> r.1[i].InsertBatch? || r.1[i].InsertRow? || r.1[i].Commit?)
            && (forall i :: |before| <= i < |r.1| && r.1[i].InsertRow? ==> r.0.Failed? && r.0.why.BatchRejected?)
            && (forall i, j :: |before| <= i < j < |r.1| && r.1[i].InsertRow? ==> !r.1[j].Commit?)
  {
    var batch := InsertBatch(t, df.Names(), df.Rows());
    var l := before + [batch];
    var rows := RowInserts(t, df.Names(), df.Rows());
    if !s.accepts(before, batch) {
      var r := l + rows;
      assert forall i :: |l| <= i < |r| ==> r[i] == rows[i - |l|];
    }
  }

  /** Any first `k` statements of `create_table_force`: no close, no single-row insert, a CREATE only third. */
  lemma ForceOpsPrefix(t: string, df: Frame, useCustom: bool, k: nat)
    requires k <= 4
    ensures var p := ForceOps(t, df, useCustom)[..k];
            forall i :: 0 <= i < k ==>
              && !p[i].Close? && !p[i].InsertRow?
              && (p[i].CreateTable? ==> i == 2 && p[..2] == [DropIfExists(t), Commit])
  {
    var ops := ForceOps(t, df, useCustom);
    var p := ops[..k];
    assert forall i :: 0 <= i < k ==> p[i] == ops[i];
    if k > 2 {
      assert p[..2] == ops[..2];
    }
  }

  /** `create_table_force` sends no close and no single-row insert, and a CREATE only third, after the drop and a commit. */
  lemma ForceRunOps(s: Server, t: string, df: Frame, useCustom: bool)
    ensures var r := ForceRun(s, [], t, df, useCustom);
            forall i :: 0 <= i < |r.1| ==>
              && !r.1[i].Close? && !r.1[i].InsertRow?
              && (r.1[i].CreateTable? ==> i == 2 && r.1[..2] == [DropIfExists(t), Commit])
  {
    var r := ForceRun(s, [], t, df, useCustom);
    assert r.1 == ForceOps(t, df, useCustom)[..|r.1|];
    ForceOpsPrefix(t, df, useCustom, |r.1|);
  }

  /**
   * On the connection the import sends the drop first and a CREATE only
   * third, right after the drop and a commit; and it never closes.
   */
  lemma ConnectedRunShape(s: Server, t: string, df: Frame, useCustom: bool)
    requires df.Valid()
    ensures var r := ConnectedRun(s, t, df, useCustom);
            && (forall i :: 0 <= i < |r.1| ==> !r.1[i].Close?)
            && (forall i :: 0 <= i < |r.1| && r.1[i].CreateTable? ==> i == 2 && r.1[..2] == [DropIfExists(t), Commit])
  {
    var force := ForceRun(s, [], t, df, useCustom);
    ForceRunOps(s, t, df, useCustom);
    if force.0.Done? {
      InsertRunOps(s, force.1, t, df);
      var r := InsertRun(s, force.1, t, df);
      assert forall i :: 0 <= i < 4 ==> r.1[i] == force.1[i];
      assert r.1[..2] == force.1[..2];
    }
  }

  /** A single-row insert is only sent on the way to a failed import, and nothing is committed after it. */
  lemma ConnectedRunRows(s: Server, t: string, df: Frame, useCustom: bool)
    requires df.Valid()
    ensures var r := ConnectedRun(s, t, df, useCustom);
            && (forall i :: 0 <= i < |r.1| && r.1[i].InsertRow? ==> r.0.Failed? && r.0.why.BatchRejected?)
            && (forall i, j :: 0 <= i < j < |r.1| && r.1[i].InsertRow? ==> !r.1[j].Commit?)
  {
    var force := ForceRun(s, [], t, df, useCustom);
    ForceRunOps(s, t, df, useCustom);
    if force.0.Done? {
      InsertRunOps(s, force.1, t, df);
      var r := InsertRun(s, force.1, t, df);
      assert forall i :: 0 <= i < 4 ==> r.1[i] == force.1[i];
    }
  }

  /** An import is reported as done exactly when the server accepts all six statements, and then they are what was sent. */
  lemma ConnectedImported(s: Server, t: string, df: Frame, useCustom: bool)
    requires df.Valid()
    ensures var r := ConnectedRun(s, t, df, useCustom);
            && (r.0.Imported? <==> AllAccepted(s, WriteOps(t, df, useCustom)))
            && (r.0.Imported? ==> r.0.rows == df.nrows && r.1 == WriteOps(t, df, useCustom))
  {
    var ops := ForceOps(t, df, useCustom);
    var tail := [InsertBatch(t, df.Names(), df.Rows()), Commit];
    ForceRunAccepted(s, [], t, df, useCustom);
    AcceptedAfterAppend(s, [], ops, tail);
    assert [] + ops == ops;
    AcceptedAfterPair(s, ops, tail[0], Commit);
  }

  /** When the import gets as far as the connection; anything earlier sends nothing. */
  predicate Connects(pathEntry: string, tableEntry: string, contents: Frame, server: Server, useCustom: bool) {
    var path := Strip(pathEntry);
    && path != [] && Strip(tableEntry) != [] && ReadFile(path, contents).Some?
    && Prepared(contents, useCustom).Some? && server.reachable
  }

  /** `import_data` is its checks, then the connected run and the close. */
  lemma ImportRunSplit(pathEntry: string, tableEntry: string, contents: Frame, server: Server, useCustom: bool)
    requires contents.Valid()
    ensures var r := ImportRun(pathEntry, tableEntry, contents, server, useCustom);
            !Connects(pathEntry, tableEntry, contents, server, useCustom) ==> r.1 == [] && (r.0 == MissingInfo || r.0.Failed?)
    ensures var r := ImportRun(pathEntry, tableEntry, contents, server, useCustom);
            Connects(pathEntry, tableEntry, contents, server, useCustom) ==>
              var run := ConnectedRun(server, Strip(tableEntry), Prepared(contents, useCustom).value, useCustom);
              r == (run.0, run.1 + [Op.Close])
  {
    if Connects(pathEntry, tableEntry, contents, server, useCustom) {
      ImportRunConnected(pathEntry, tableEntry, contents, server, useCustom);
    } else {
      ImportRunNotConnected(pathEntry, tableEntry, contents, server, useCustom);
    }
  }

  lemma ImportRunNotConnected(pathEntry: string, tableEntry: string, contents: Frame, server: Server, useCustom: bool)
    requires contents.Valid() && !Connects(pathEntry, tableEntry, contents, server, useCustom)
    ensures var r := ImportRun(pathEntry, tableEntry, contents, server, useCustom);
            r.1 == [] && (r.0 == MissingInfo || r.0.Failed?)
  {
    var path := Strip(pathEntry);
    var read := ReadFile(path, contents);
    if path != [] && Strip(tableEntry) != [] && read.Some? {
      assert read.value.1 == contents;
    }
  }

  lemma ImportRunConnected(pathEntry: string, tableEntry: string, contents: Frame, server: Server, useCustom: bool)
    requires contents.Valid() && Connects(pathEntry, tableEntry, contents, server, useCustom)
    ensures var run := ConnectedRun(server, Strip(tableEntry), Prepared(contents, useCustom).value, useCustom);
            ImportRun(pathEntry, tableEntry, contents, server, useCustom) == (run.0, run.1 + [Op.Close])
  {
    assert ReadFile(Strip(pathEntry), contents).value.1 == contents;
  }

  /**
   * "Imported n rows" is reported exactly when both entries are filled in,
   * the file type is supported, cleaning does not raise, the server is
   * reachable and it accepts the drop, the CREATE, the batch and the three
   * commits; then n is the frame's row count and those six statements and
   * the close are everything that was sent.
   */
  lemma ImportedExactly(pathEntry: string, tableEntry: string, contents: Frame, server: Server, useCustom: bool)
    requires contents.Valid()
    ensures var r := ImportRun(pathEntry, tableEntry, contents, server, useCustom);
            var t := Strip(tableEntry);
            var df := Prepared(contents, useCustom);
            && (r.0.Imported? <==>
                  Connects(pathEntry, tableEntry, contents, server, useCustom) && AllAccepted(server, WriteOps(t, df.value, useCustom)))
            && (r.0.Imported? ==> r.0.rows == df.value.nrows && r.1 == WriteOps(t, df.value, useCustom) + [Op.Close])
  {
    if Connects(pathEntry, tableEntry, contents, server, useCustom) {
      ImportRunConnected(pathEntry, tableEntry, contents, server, useCustom);
      ConnectedImported(server, Strip(tableEntry), Prepared(contents, useCustom).value, useCustom);
    } else {
      ImportRunNotConnected(pathEntry, tableEntry, contents, server, useCustom);
    }
  }

  /** The connection is closed exactly once, as the last thing sent, when it was opened; when it was not, nothing was sent. */
  lemma ClosedExactlyOnce(pathEntry: string, tableEntry: string, contents: Frame, server: Server, useCustom: bool)
    requires contents.Valid()
    ensures var r := ImportRun(pathEntry, tableEntry, contents, server, useCustom);
            && (r.1 != [] <==> Connects(pathEntry, tableEntry, contents, server, useCustom))
            && (r.1 != [] ==> r.1[|r.1| - 1] == Op.Close && forall i :: 0 <= i < |r.1| - 1 ==> !r.1[i].Close?)
  {
    if Connects(pathEntry, tableEntry, contents, server, useCustom) {
      var df := Prepared(contents, useCustom).value;
      ImportRunConnected(pathEntry, tableEntry, contents, server, useCustom);
      ConnectedRunShape(server, Strip(tableEntry), df, useCustom);
      CloseLast(ConnectedRun(server, Strip(tableEntry), df, useCustom).1);
    } else {
      ImportRunNotConnected(pathEntry, tableEntry, contents, server, useCustom);
    }
  }

  /** Closing after statements that never close leaves exactly one close, at the end. */
  lemma CloseLast(log: seq<Op>)
    requires forall i :: 0 <= i < |log| ==> !log[i].Close?
    ensures var l := log + [Op.Close];
            l[|l| - 1] == Op.Close && forall i :: 0 <= i < |l| - 1 ==> !l[i].Close?
  {
    var l := log + [Op.Close];
    assert forall i :: 0 <= i < |l| - 1 ==> l[i] == log[i];
  }

  /**
   * Whatever the table held before is dropped before anything is created:
   * the first statement is the drop of the table named in the entry, and a
   * CREATE is only ever the third statement, right after that drop and a
   * commit.
   */
  lemma DropBeforeCreate(pathEntry: string, tableEntry: string, contents: Frame, server: Server, useCustom: bool)
    requires contents.Valid()
    ensures var r := ImportRun(pathEntry, tableEntry, contents, server, useCustom);
            && (r.1 != [] ==> r.1[0] == DropIfExists(Strip(tableEntry)))
            && (forall i :: 0 <= i < |r.1| && r.1[i].CreateTable? ==>
                  i == 2 && r.1[..2] == [DropIfExists(Strip(tableEntry)), Commit])
  {
    if Connects(pathEntry, tableEntry, contents, server, useCustom) {
      var df := Prepared(contents, useCustom).value;
      var t := Strip(tableEntry);
      ImportRunConnected(pathEntry, tableEntry, contents, server, useCustom);
      ConnectedRunShape(server, t, df, useCustom);
      CloseKeepsDropFirst(ConnectedRun(server, t, df, useCustom).1, t);
    } else {
      ImportRunNotConnected(pathEntry, tableEntry, contents, server, useCustom);
    }
  }

  /** The drop-first shape of a log survives the close appended to it. */
  lemma CloseKeepsDropFirst(log: seq<Op>, t: string)
    requires |log| >= 1 && log[0] == DropIfExists(t)
    requires forall i :: 0 <= i < |log| && log[i].CreateTable? ==> i == 2 && log[..2] == [DropIfExists(t), Commit]
    ensures var l := log + [Op.Close];
            && l[0] == DropIfExists(t)
            && forall i :: 0 <= i < |l| && l[i].CreateTable? ==> i == 2 && l[..2] == [DropIfExists(t), Commit]
  {
    var l := log + [Op.Close];
    assert forall i :: 0 <= i < |log| ==> l[i] == log[i];
    if |log| >= 2 {
      assert l[..2] == log[..2];
    }
  }

  /** The rows of a refused batch are retried one by one but never committed, and the import then fails. */
  lemma FallbackNeverCommitted(pathEntry: string, tableEntry: string, contents: Frame, server: Server, useCustom: bool)
    requires contents.Valid()
    ensures var r := ImportRun(pathEntry, tableEntry, contents, server, useCustom);
            && (forall i :: 0 <= i < |r.1| && r.1[i].InsertRow? ==> r.0.Failed? && r.0.why.BatchRejected?)
            && (forall i, j :: 0 <= i < j < |r.1| && r.1[i].InsertRow? ==> !r.1[j].Commit?)
  {
    if Connects(pathEntry, tableEntry, contents, server, useCustom) {
      var df := Prepared(contents, useCustom).value;
      var t := Strip(tableEntry);
      ImportRunConnected(pathEntry, tableEntry, contents, server, useCustom);
      ConnectedRunRows(server, t, df, useCustom);
      var run := ConnectedRun(server, t, df, useCustom);
      CloseKeepsRows(run.1, run.0.Failed? && run.0.why.BatchRejected?);
    } else {
      ImportRunNotConnected(pathEntry, tableEntry, contents, server, useCustom);
    }
  }

  /** Appending the close adds no single-row insert and no commit. */
  lemma CloseKeepsRows(log: seq<Op>, failed: bool)
    requires forall i :: 0 <= i < |log| && log[i].InsertRow? ==> failed
    requires forall i, j :: 0 <= i < j < |log| && log[i].InsertRow? ==> !log[j].Commit?
    ensures var l := log + [Op.Close];
            && (forall i :: 0 <= i < |l| && l[i].InsertRow? ==> failed)
            && (forall i, j :: 0 <= i < j < |l| && l[i].InsertRow? ==> !l[j].Commit?)
  {
    var l := log + [Op.Close];
    assert forall i :: 0 <= i < |log| ==> l[i] == log[i];
  }

  /**
   * There is no table-name check and no confirmation step here: the import
   * never ends as canceled and never fails for the table name or an unbound
   * frame; a failure is a rejected file type, an ambiguous column, a failed
   * connection or a statement the server refused.
   */
  lemma FailureKinds(pathEntry: string, tableEntry: string, contents: Frame, server: Server, useCustom: bool)
    requires contents.Valid()
    ensures var r := ImportRun(pathEntry, tableEntry, contents, server, useCustom);
            && r.0 != Canceled
            && (r.0.Failed? ==> r.0.why in {UnsupportedFormat, CleaningFailed, ConnectFailed} || r.0.why.Rejected? || r.0.why.BatchRejected?)
  {
    ImportRunSplit(pathEntry, tableEntry, contents, server, useCustom);
  }
}
