/**
 * The one-shot script (`import_excel_to_sql.py`): it reads one CSV file,
 * turns every value into trimmed text (with the texts `nan`, `NaN` and
 * `None` taken as missing), makes the headers SQL-friendly, creates the
 * table `intertextile_vietnam` with TEXT columns when it does not exist yet,
 * inserts every row in one batch and commits. Nothing is caught: the first
 * error ends the script, before the connection is closed.
 */
module Script {
  import opened Strings
  import opened Frames
  import opened Sql
  import Improved

  /** The target table, fixed in the script. */
  const Table := "intertextile_vietnam"

  // ---------------------------------------------------------------- cleaning

  /** The texts `df.replace` turns into `None`. */
  predicate MissingText(x: string) {
    x == "nan" || x == "NaN" || x == "None"
  }

  /**
   * One cell through `where(notnull, None)`, `astype(str)`, the `replace`
   * of the missing-value texts and the final `strip`: missing when the shown
   * text is exactly one of those texts, trimmed text otherwise.
   */
  function ScriptCell(c: Cell): (r: Cell)
    ensures r.Null? <==> MissingText(Show(c))
    ensures r.Str? ==> IsStripped(r.s)
    ensures r.Str? ==> r.s == Strip(Show(c))
  {
    var x := Show(c);
    if MissingText(x) then Null else Str(Strip(x))
  }

  /** A missing cell stays missing, and so does the text `None`. */
  lemma MissingStaysMissing()
    ensures ScriptCell(Null) == Null
    ensures ScriptCell(Str("None")) == Null
    ensures ScriptCell(Str("nan")) == Null
  {
  }

  /** The replace runs before the strip, so a padded `None` survives as the text "None". */
  lemma PaddedNoneIsText()
    ensures ScriptCell(Str(" None ")) == Str("None")
  {
    var x := " None ";
    assert !MissingText(x) by {
      assert x[0] == ' ';
    }
    PaddedNoneStrip();
  }

  lemma PaddedNoneStrip()
    ensures Strip(" None ") == "None"
  {
    PaddedNoneLeading();
    PaddedNoneTrailing();
    assert " None "[1..] == "None ";
    assert "None "[..4] == "None";
  }

  lemma PaddedNoneLeading()
    ensures LeadingSpaces(" None ") == 1
  {
    assert " None "[1..] == "None ";
    assert LeadingSpaces("None ") == 0;
  }

  lemma PaddedNoneTrailing()
    ensures TrailingSpaces("None ") == 1
  {
    assert "None "[..4] == "None";
    assert TrailingSpaces("None") == 0;
  }

  /**
   * The script's cleaning and the GUI draft's `applymap` agree on every
   * cell except the three missing-value texts, which the script drops.
   */
  lemma ScriptCellAgrees(c: Cell)
    ensures !MissingText(Show(c)) ==> ScriptCell(c) == Improved.TextCell(c)
    ensures MissingText(Show(c)) ==> ScriptCell(c) == Null
  {
  }

  /** The script's cleaning of one column; the column becomes an object column. */
  function ScriptColumn(col: Column): (r: Column)
    ensures r.name == col.name && r.dtype == Object && |r.cells| == |col.cells|
    ensures forall i :: 0 <= i < |col.cells| ==> r.cells[i] == ScriptCell(col.cells[i])
  {
    Column(col.name, Object, seq(|col.cells|, i requires 0 <= i < |col.cells| => ScriptCell(col.cells[i])))
  }

  /** Step 1 of the script on the whole frame: every value is missing or trimmed text. */
  function ScriptClean(df: Frame): (r: Frame)
    ensures r.nrows == df.nrows && r.Names() == df.Names()
    ensures df.Valid() ==> r.Valid()
    ensures Improved.AllText(r)
    ensures forall j :: 0 <= j < |df.cols| ==> r.cols[j] == ScriptColumn(df.cols[j])
  {
    Frame(df.nrows, seq(|df.cols|, j requires 0 <= j < |df.cols| => ScriptColumn(df.cols[j])))
  }

  // ------------------------------------------------------------ column names

  /** The five `replace` calls of step 2, in their order. */
  function Rewrite(s: string): (r: string)
    ensures forall x :: x in r ==> !Improved.Rewritten(x) && (x in s || x == '_')
  {
    Replace(Replace(Replace(Replace(Replace(s, ' ', "_"), '.', "_"), ';', "_"), '-', "_"), ':', "")
  }

  /** Step 2: strip, turn space, `.`, `;` and `-` into `_`, delete `:`, lowercase. */
  function SafeName(col: string): (r: string)
    ensures forall x :: x in r ==> !Improved.Rewritten(x) && !('A' <= x <= 'Z')
    ensures forall x :: x in r ==> x in col || x == '_' || ('a' <= x <= 'z')
  {
    var s := Rewrite(Strip(col));
    LowerChars(s);
    forall x | x in s
      ensures x in col || x == '_'
    {
      if x != '_' {
        StripChars(col, x);
      }
    }
    Lower(s)
  }

  /**
   * The script and the GUI draft differ only in the interior space: the
   * script makes it an underscore, the GUI deletes it. Without an interior
   * space both give the same name.
   */
  lemma SafeNameAgrees(col: string)
    requires ' ' !in Strip(col)
    ensures SafeName(col) == Improved.SanitizeColumnName(col)
  {
    var s := Strip(col);
    assert Replace(s, ' ', "_") == s;
    assert Replace(s, ' ', "") == s;
  }

  /** A text without the rewritten characters comes out of the five `replace` calls unchanged. */
  lemma RewriteAbsent(s: string)
    requires forall x :: x in s ==> !Improved.Rewritten(x)
    ensures Rewrite(s) == s
  {
    var s1 := Replace(s, ' ', "_");
    assert s1 == s;
    var s2 := Replace(s1, '.', "_");
    assert s2 == s;
    var s3 := Replace(s2, ';', "_");
    assert s3 == s;
    var s4 := Replace(s3, '-', "_");
    assert s4 == s;
  }

  /** A header made only of lower-case letters, digits and underscores is kept as it is. */
  lemma SafeNameKeepsPlainNames(col: string)
    requires forall x :: x in col ==> ('a' <= x <= 'z') || ('0' <= x <= '9') || x == '_'
    ensures SafeName(col) == col
  {
    assert NoSpace(col) by {
      forall i | 0 <= i < |col|
        ensures !IsSpace(col[i])
      {
        assert col[i] in col;
      }
    }
    StripNoSpace(col);
    RewriteAbsent(col);
    LowerOfLower(col);
    SafeNameStages(col, col, col);
  }

  /** The three stages of step 2, one after the other. */
  lemma SafeNameStages(col: string, stripped: string, rewritten: string)
    requires Strip(col) == stripped && Rewrite(stripped) == rewritten
    ensures SafeName(col) == Lower(rewritten)
  {
  }

  /** The frame the script writes: cleaned, then renamed with the safe names. */
  function ScriptFrame(contents: Frame): (r: Frame)
    ensures r.nrows == contents.nrows && |r.cols| == |contents.cols|
    ensures forall j :: 0 <= j < |r.cols| ==> r.cols[j].name == SafeName(contents.cols[j].name)
    ensures contents.Valid() ==> r.Valid()
    ensures Improved.AllText(r)
  {
    RenameAll(ScriptClean(contents), SafeName)
  }

  // ------------------------------------------------------------------ writes

  /** Step 4: one TEXT column per safe name. */
  function TextDefs(names: seq<string>): (r: seq<ColumnDef>)
    ensures |r| == |names|
    ensures forall j :: 0 <= j < |r| ==> r[j] == ColumnDef(names[j], "TEXT")
  {
    seq(|names|, j requires 0 <= j < |names| => ColumnDef(names[j], "TEXT"))
  }

  /** The CREATE TABLE inside the guard reads back as the table and its TEXT columns. */
  lemma TextDefsRoundTrip(names: seq<string>)
    requires forall j :: 0 <= j < |names| ==> ']' !in names[j]
    ensures ParseCreate(CreateText(Table, TextDefs(names))) == Some((Table, TextDefs(names)))
  {
    assert ']' !in Table;
    CreateTextRoundTrip(Table, TextDefs(names));
  }

  /** The INSERT has one `?` per column, so each row binds one value per column. */
  lemma InsertPlaceholders(names: seq<string>)
    requires forall j :: 0 <= j < |names| ==> '?' !in names[j]
    ensures Count(InsertText(Table, names), '?') == |names|
  {
    assert '?' !in Table;
    InsertMarkers(Table, names);
  }

  /** What the script sends when nothing is refused, before the close. */
  function ScriptOps(df: Frame): seq<Op>
    requires df.Valid()
  {
    [CreateIfAbsent(Table, TextDefs(df.Names())), Commit, InsertBatch(Table, df.Names(), df.Rows()), Commit]
  }

  /**
   * The script on `contents` against `server`: its final status and every
   * statement sent. A failed connection sends nothing; the first refused
   * statement ends the script with nothing more sent, not even the close.
   */
  function ScriptRun(contents: Frame, server: Server): (r: (Status, seq<Op>))
    requires contents.Valid()
    ensures r.0.Raised? ==> r.0.why == ConnectFailed || r.0.why.Rejected?
  {
    var df := ScriptFrame(contents);
    var ops := ScriptOps(df);
    if !server.reachable then (Raised(ConnectFailed), [])
    else if !server.accepts([], ops[0]) then (Raised(Rejected(ops[0])), ops[..1])
    else if !server.accepts(ops[..1], ops[1]) then (Raised(Rejected(ops[1])), ops[..2])
    else if !server.accepts(ops[..2], ops[2]) then (Raised(Rejected(ops[2])), ops[..3])
    else if !server.accepts(ops[..3], ops[3]) then (Raised(Rejected(ops[3])), ops)
    else (Done, ops + [Op.Close])
  }

  /** The script from top to bottom, on the model of the connection. */
  method Run(contents: Frame, server: Server) returns (status: Status, log: seq<Op>)
    requires contents.Valid()
    ensures (status, log) == ScriptRun(contents, server)
  {
    var df := ScriptClean(contents);
    df := RenameAll(df, SafeName);
    if !server.reachable {
      return Raised(ConnectFailed), [];
    }
    var conn := new Connection(server);
    ghost var ops := ScriptOps(df);
    assert df == ScriptFrame(contents);
    assert ops[..1] == [ops[0]] && ops[..2] == [ops[0], ops[1]] && ops[..3] == [ops[0], ops[1], ops[2]];
    var create := CreateIfAbsent(Table, TextDefs(df.Names()));
    assert create == ops[0];
    var ok := conn.Execute(create);
    assert conn.log == ops[..1];
    if !ok {
      return Raised(Rejected(create)), conn.log;
    }
    ok := conn.Execute(Commit);
    assert conn.log == ops[..2];
    if !ok {
      return Raised(Rejected(Commit)), conn.log;
    }
    var batch := InsertBatch(Table, df.Names(), df.Rows());
    assert batch == ops[2];
    ok := conn.Execute(batch);
    assert conn.log == ops[..3];
    if !ok {
      return Raised(Rejected(batch)), conn.log;
    }
    ok := conn.Execute(Commit);
    assert conn.log == ops;
    if !ok {
      return Raised(Rejected(Commit)), conn.log;
    }
    conn.Close();
    status, log := Done, conn.log;
  }

  // -------------------------------------------------------------- properties

  /**
   * The script succeeds exactly when the server is reachable and accepts the
   * guarded CREATE, the batch and both commits; then it has sent exactly
   * those and the close.
   */
  lemma DoneExactly(contents: Frame, server: Server)
    requires contents.Valid()
    ensures var r := ScriptRun(contents, server);
            var ops := ScriptOps(ScriptFrame(contents));
            && (r.0.Done? <==> server.reachable && AllAccepted(server, ops))
            && (r.0.Done? ==> r.1 == ops + [Op.Close])
  {
    var ops := ScriptOps(ScriptFrame(contents));
    assert ops == [ops[0], ops[1]] + [ops[2], ops[3]];
    AcceptedAfterAppend(server, [], [ops[0], ops[1]], [ops[2], ops[3]]);
    AcceptedAfterPair(server, [], ops[0], ops[1]);
    AcceptedAfterPair(server, [ops[0], ops[1]], ops[2], ops[3]);
    assert [] + [ops[0]] == ops[..1] && [] + [ops[0], ops[1]] == ops[..2];
    assert [ops[0], ops[1]] + [ops[2]] == ops[..3];
  }

  /**
   * The script never removes data: it sends no drop and no single-row
   * insert, it only creates the table behind the existence guard, and a
   * failure leaves the connection unclosed.
   */
  lemma NeverDestroys(contents: Frame, server: Server)
    requires contents.Valid()
    ensures var r := ScriptRun(contents, server);
            && (forall i :: 0 <= i < |r.1| ==>
                  !r.1[i].DropTable? && !r.1[i].DropIfExists? && !r.1[i].CreateTable? && !r.1[i].InsertRow?)
            && (r.0.Raised? ==> forall i :: 0 <= i < |r.1| ==> !r.1[i].Close?)
  {
    var ops := ScriptOps(ScriptFrame(contents));
    assert forall k :: 0 <= k <= 4 ==> forall i :: 0 <= i < k ==> ops[..k][i] == ops[i];
  }
}
