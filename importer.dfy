/**
 * The data-preparation functions of the GUI importer (`importer.py`, and its
 * byte-identical copy `main.py`): column-name sanitising, the pandas-dtype to
 * SQL-type policy, the labels built from the catalog, the table-name check,
 * cell cleaning, the custom-schema remap and the file-reader dispatch.
 */
module Importer {
  import opened Strings
  import opened Frames
  import opened Paths
  import opened Sql
  import opened Custom

  // ------------------------------------------------------------ column names

  /** A character a sanitised column name may hold: `[a-z0-9_]`. */
  predicate SafeChar(c: char) {
    ('a' <= c <= 'z') || ('0' <= c <= '9') || c == '_'
  }

  /** `sanitize_column_name`: strip, spaces to `_`, lowercase, then delete everything outside `[a-zA-Z0-9_]`. */
  function SanitizeColumnName(col: string): (r: string)
    ensures forall c :: c in r ==> SafeChar(c)
  {
    KeepWordChars(Lower(Replace(Strip(col), ' ', "_")))
  }

  /** Sanitising a sanitised name changes nothing. */
  lemma SanitizeIdempotent(col: string)
    ensures SanitizeColumnName(SanitizeColumnName(col)) == SanitizeColumnName(col)
  {
    var r := SanitizeColumnName(col);
    assert NoSpace(r) by {
      forall i | 0 <= i < |r| ensures !IsSpace(r[i]) {
        assert r[i] in r;
      }
    }
    StripNoSpace(r);
    LowerOfLower(r);
  }

  /** An interior space becomes an underscore. */
  lemma SanitizeSpaceExample()
    ensures SanitizeColumnName("Company Name") == "company_name"
  {
    SpaceExampleStripped();
    SpaceExampleReplace();
    SpaceExampleLower();
    SpaceExampleKeep();
    SanitizeStages("Company Name", "Company_Name", "company_name", "company_name");
  }

  /** For a name with nothing to trim the sanitiser is the `replace`, the lowercasing and the filter. */
  lemma SanitizeStages(col: string, replaced: string, lowered: string, kept: string)
    requires IsStripped(col) && Replace(col, ' ', "_") == replaced
    requires Lower(replaced) == lowered && KeepWordChars(lowered) == kept
    ensures SanitizeColumnName(col) == kept
  {
    StripOfStripped(col);
  }

  lemma SpaceExampleStripped()
    ensures IsStripped("Company Name")
  {
  }

  lemma SpaceExampleReplace()
    ensures Replace("Company Name", ' ', "_") == "Company_Name"
  {
    ReplaceOneAt("Company Name", "Company", ' ', "Name", "_", "Company_Name");
  }

  lemma SpaceExampleLower()
    ensures Lower("Company_Name") == "company_name"
  {
  }

  lemma SpaceExampleKeep()
    ensures KeepWordChars("company_name") == "company_name"
  {
  }

  /** The hyphen and the semicolon disappear rather than turning into underscores. */
  lemma SanitizePunctuationExample()
    ensures SanitizeColumnName("E-Mail;") == "email"
  {
    PunctuationExampleStripped();
    PunctuationExampleReplace();
    PunctuationExampleLower();
    PunctuationExampleKeep();
    SanitizeStages("E-Mail;", "E-Mail;", "e-mail;", "email");
  }

  lemma PunctuationExampleStripped()
    ensures IsStripped("E-Mail;")
  {
  }

  lemma PunctuationExampleReplace()
    ensures Replace("E-Mail;", ' ', "_") == "E-Mail;"
  {
    assert ' ' !in "E-Mail;";
  }

  lemma PunctuationExampleLower()
    ensures Lower("E-Mail;") == "e-mail;"
  {
  }

  lemma PunctuationExampleKeep()
    ensures KeepWordChars("e-mail;") == "email"
  {
    var e, m := "e", "mail";
    KeepWordCharsDropTwo(e, '-', m, ';');
    assert e + ['-'] + m + [';'] == "e-mail;";
    assert e + m == "email";
  }

  // ------------------------------------------------------------- SQL types

  /**
   * `map_dtype_to_sql(col, df[col])`: the first of integer, float and
   * datetime that the column's dtype is, else NVARCHAR(MAX); `None` stands for
   * no column data, or for a frame of several same-named columns, which none
   * of pandas' dtype tests accepts.
   */
  function MapDtypeToSql(data: Option<Dtype>): (r: string)
    ensures r == "BIGINT" <==> data == Some(Int64) || data == Some(UInt64)
    ensures r == "FLOAT" <==> data == Some(Float64)
    ensures r == "DATETIME" <==> data == Some(Datetime64)
    ensures r == "NVARCHAR(MAX)" <==> data.None? || data == Some(Bool) || data == Some(Object)
    ensures ',' !in r
  {
    match data
    case Some(Int64) => "BIGINT"
    case Some(UInt64) => "BIGINT"
    case Some(Float64) => "FLOAT"
    case Some(Datetime64) => "DATETIME"
    case _ => "NVARCHAR(MAX)"
  }

  /** `df[name]`: one column's dtype, or `None` when the label names several columns. */
  function ColumnData(df: Frame, name: string): Option<Dtype> {
    var ms := Matching(df.cols, name);
    if |ms| == 1 then Some(ms[0].dtype) else None
  }

  /** The `[col] TYPE` definitions `create_table` lists, one per column of `df`. */
  function ColumnDefs(df: Frame): (r: seq<ColumnDef>)
    ensures |r| == |df.cols|
    ensures forall j :: 0 <= j < |df.cols| ==> r[j].name == df.cols[j].name && ',' !in r[j].sqlType
  {
    seq(|df.cols|, j requires 0 <= j < |df.cols| => ColumnDef(df.cols[j].name, MapDtypeToSql(ColumnData(df, df.cols[j].name))))
  }

  /**
   * The CREATE TABLE text of `create_table` reads back as the table and one
   * definition per column of the frame, in column order.
   */
  lemma CreateListsColumns(t: string, df: Frame)
    requires ']' !in t
    requires forall j :: 0 <= j < |df.cols| ==> ']' !in df.cols[j].name
    ensures ParseCreate(CreateText(t, ColumnDefs(df))) == Some((t, ColumnDefs(df)))
    ensures |ColumnDefs(df)| == |df.cols|
    ensures forall j :: 0 <= j < |df.cols| ==> ColumnDefs(df)[j].name == df.Names()[j]
  {
    CreateTextRoundTrip(t, ColumnDefs(df));
  }

  // -------------------------------------------------------- catalog labels

  /** The parenthesised part of a catalog label. */
  datatype TypeParam = NoParam | MaxLength | Length(n: int) | PrecisionScale(p: int, s: int)

  /** Catalog types that carry a length. */
  predicate SizedType(t: string) {
    t in {"varchar", "nvarchar", "char", "nchar", "binary", "varbinary"}
  }

  /** Catalog types that carry a precision and a scale. */
  predicate ExactNumericType(t: string) {
    t in {"decimal", "numeric"}
  }

  /** What `get_existing_columns` appends to a catalog type name. */
  function Param(row: CatalogRow): TypeParam {
    if SizedType(row.dataType) then
      (if row.maxLength == -1 then MaxLength else Length(row.maxLength))
    else if ExactNumericType(row.dataType) then PrecisionScale(row.precision, row.scale)
    else NoParam
  }

  /** What goes between the parentheses. */
  function ParamBody(p: TypeParam): string {
    match p
    case NoParam => ""
    case MaxLength => "MAX"
    case Length(n) => IntToString(n)
    case PrecisionScale(pr, sc) => IntToString(pr) + "," + IntToString(sc)
  }

  function ParamText(p: TypeParam): string {
    if p.NoParam? then "" else "(" + ParamBody(p) + ")"
  }

  /** The label of one catalog row, such as `nvarchar(MAX)`, `varchar(50)` or `decimal(10,2)`. */
  function TypeLabel(row: CatalogRow): string {
    row.dataType + ParamText(Param(row))
  }

  /** Reads the parenthesised part of a label. */
  function ParseParams(body: string): Option<TypeParam> {
    if body == "MAX" then Some(MaxLength)
    else
      var c := IndexOf(body, ',');
      if c == |body| then
        match ParseInt(body)
        case Some(n) => Some(Length(n))
        case None => None
      else
        match (ParseInt(body[..c]), ParseInt(body[c + 1..]))
        case (Some(p), Some(s)) => Some(PrecisionScale(p, s))
        case _ => None
  }

  /** Reads a label back into its type name and parameters. */
  function ParseLabel(text: string): Option<(string, TypeParam)> {
    var k := IndexOf(text, '(');
    if k == |text| then Some((text, NoParam))
    else
      var inner := text[k + 1..];
      if inner == [] || inner[|inner| - 1] != ')' then None
      else
        match ParseParams(inner[..|inner| - 1])
        case Some(p) => Some((text[..k], p))
        case None => None
  }

  lemma IntToStringNotMax(i: int)
    ensures IntToString(i) != "MAX"
  {
    IntToStringRoundTrip(i);
    assert !IsDigit('M');
    assert ParseInt("MAX") == None;
  }

  lemma ParseParamsBody(p: TypeParam)
    requires !p.NoParam?
    ensures ParseParams(ParamBody(p)) == Some(p)
  {
    match p
    case MaxLength =>
    case Length(n) =>
      var ds := IntToString(n);
      IntToStringRoundTrip(n);
      IntToStringNotMax(n);
      IndexOfFirst(ds, ',', |ds|);
    case PrecisionScale(pr, sc) =>
      var ps := IntToString(pr);
      var ss := IntToString(sc);
      IntToStringRoundTrip(pr);
      IntToStringRoundTrip(sc);
      var body := ps + "," + ss;
      IndexOfFirst(body, ',', |ps|);
      assert body[..|ps|] == ps;
      assert body[|ps| + 1..] == ss;
      assert body[|ps|] == ',';
  }

  lemma ParseLabelSplit(dt: string, body: string)
    requires '(' !in dt
    ensures ParseLabel(dt + ("(" + body + ")")) == match ParseParams(body) case Some(p) => Some((dt, p)) case None => None
  {
    var text := dt + ("(" + body + ")");
    IndexOfFirst(text, '(', |dt|);
    assert text[..|dt|] == dt;
    var inner := text[|dt| + 1..];
    assert inner == body + ")";
    assert inner[..|inner| - 1] == body;
  }

  /**
   * A label names the catalog type it was built from and carries exactly the
   * length, `MAX` marker or precision and scale the type class calls for.
   */
  lemma LabelRoundTrip(row: CatalogRow)
    requires '(' !in row.dataType
    ensures ParseLabel(TypeLabel(row)) == Some((row.dataType, Param(row)))
  {
    var p := Param(row);
    if p.NoParam? {
      assert TypeLabel(row) == row.dataType;
      IndexOfFirst(row.dataType, '(', |row.dataType|);
    } else {
      ParseLabelSplit(row.dataType, ParamBody(p));
      ParseParamsBody(p);
    }
  }

  /**
   * `get_existing_columns`' loop over the fetched catalog rows: one
   * `(column name, label)` pair per row, in row order.
   */
  method LabelColumns(rows: seq<CatalogRow>) returns (columns: seq<(string, string)>)
    ensures |columns| == |rows|
    ensures forall i :: 0 <= i < |rows| ==> columns[i] == (rows[i].columnName, TypeLabel(rows[i]))
  {
    columns := [];
    for i := 0 to |rows|
      invariant |columns| == i
      invariant forall m :: 0 <= m < i ==> columns[m] == (rows[m].columnName, TypeLabel(rows[m]))
    {
      var dataType := LabelOf(rows[i]);
      columns := columns + [(rows[i].columnName, dataType)];
    }
  }

  /** The body of that loop for one row: the type name, with its length or precision and scale appended. */
  method LabelOf(row: CatalogRow) returns (dataType: string)
    ensures dataType == TypeLabel(row)
  {
    dataType := row.dataType;
    if SizedType(dataType) {
      if row.maxLength == -1 {
        dataType := dataType + "(MAX)";
      } else {
        dataType := dataType + "(" + IntToString(row.maxLength) + ")";
      }
    } else if ExactNumericType(dataType) {
      dataType := dataType + "(" + IntToString(row.precision) + "," + IntToString(row.scale) + ")";
    }
    LabelCases(row);
  }

  /** `TypeLabel` written out case by case, in the shape `get_existing_columns` builds it. */
  lemma LabelCases(row: CatalogRow)
    ensures SizedType(row.dataType) && row.maxLength == -1 ==> TypeLabel(row) == row.dataType + "(MAX)"
    ensures SizedType(row.dataType) && row.maxLength != -1 ==>
      TypeLabel(row) == row.dataType + "(" + IntToString(row.maxLength) + ")"
    ensures !SizedType(row.dataType) && ExactNumericType(row.dataType) ==>
      TypeLabel(row) == row.dataType + "(" + IntToString(row.precision) + "," + IntToString(row.scale) + ")"
    ensures !SizedType(row.dataType) && !ExactNumericType(row.dataType) ==> TypeLabel(row) == row.dataType
  {
    var n := row.dataType;
    if SizedType(n) && row.maxLength != -1 {
      var d := IntToString(row.maxLength);
      assert n + "(" + d + ")" == n + ("(" + d + ")");
    } else if !SizedType(n) && ExactNumericType(n) {
      var p, q := IntToString(row.precision), IntToString(row.scale);
      assert n + "(" + p + "," + q + ")" == n + ("(" + (p + "," + q) + ")");
    } else if !SizedType(n) {
      assert n + "" == n;
    }
  }

  // ------------------------------------------------------------ table name

  predicate AllWordChars(s: string) {
    forall i :: 0 <= i < |s| ==> IsWordChar(s[i])
  }

  /** `re.match(r'^[a-zA-Z0-9_]+$', t)`: `$` also matches just before a final newline. */
  predicate ValidTableName(t: string) {
    (t != [] && AllWordChars(t)) || (|t| >= 2 && t[|t| - 1] == '\n' && AllWordChars(t[..|t| - 1]))
  }

  /** For a stripped name the check means exactly: non-empty and only `[a-zA-Z0-9_]`. */
  lemma ValidStrippedName(t: string)
    requires IsStripped(t)
    ensures ValidTableName(t) <==> t != [] && AllWordChars(t)
  {
  }

  /** Unstripped, a name with a trailing newline passes the check. */
  lemma TrailingNewlineAccepted()
    ensures ValidTableName("orders\n") && !AllWordChars("orders\n")
  {
    assert "orders\n"[..6] == "orders";
    assert !IsWordChar("orders\n"[6]);
  }

  // ---------------------------------------------------------------- cleaning

  /** `"tel" in col.lower() or "phone" in col.lower()` */
  predicate IsPhoneColumn(name: string) {
    Contains(Lower(name), "tel") || Contains(Lower(name), "phone")
  }

  /** The text starts with `ph:` in any letter case. */
  predicate HasPhPrefix(s: string) {
    |s| >= 3 && LowerChar(s[0]) == 'p' && LowerChar(s[1]) == 'h' && s[2] == ':'
  }

  /** `re.sub(r'(?i)^ph:\s*', '', s)`: one leading `ph:` and the whitespace after it. */
  function DropPhPrefix(s: string): (r: string)
    ensures |r| <= |s| && r == s[|s| - |r|..]
    ensures !HasPhPrefix(s) ==> r == s
    ensures HasPhPrefix(s) ==> |r| <= |s| - 3 && AllSpace(s[3..|s| - |r|]) && (r == [] || !IsSpace(r[0]))
  {
    if HasPhPrefix(s) then
      var t := s[3..];
      var n := LeadingSpaces(t);
      assert s[3..3 + n] == t[..n];
      t[n..]
    else s
  }

  /** A phone cell: `astype(str)`, the prefix removed, then `strip()`. */
  function PhoneCell(c: Cell): Cell {
    Str(Strip(DropPhPrefix(Show(c))))
  }

  /** A cleaned phone cell has nothing left to trim. */
  lemma PhoneCellStripped(c: Cell)
    ensures StripCell(PhoneCell(c)) == PhoneCell(c)
  {
    StripIdempotent(DropPhPrefix(Show(c)));
  }

  /** `Series.str.strip()` on an object column: strings are stripped, anything else becomes missing. */
  function StripCell(c: Cell): Cell {
    match c
    case Str(s) => Str(Strip(s))
    case _ => Null
  }

  /** The name labels some other column too. */
  predicate SharedName(cols: seq<Column>, j: nat)
    requires j < |cols|
  {
    exists i :: 0 <= i < |cols| && i != j && cols[i].name == cols[j].name
  }

  /**
   * The column has a present value and no string among its values: pandas
   * infers such an object column as numbers, booleans or dates, and its
   * `.str` accessor refuses it.
   */
  predicate NoStrings(col: Column) {
    && (exists i :: 0 <= i < |col.cells| && !col.cells[i].Null?)
    && forall i :: 0 <= i < |col.cells| ==> !col.cells[i].Str?
  }

  /**
   * `df[col].str` fails when `col` labels several columns (pandas then hands
   * back a frame, which has no `.str`): that happens for a shared name that
   * the phone pass or the object pass touches. The object pass also fails on
   * an object column holding no string; a phone column is all text by then.
   */
  predicate CleanFails(df: Frame) {
    exists j :: 0 <= j < |df.cols| &&
      (|| ((IsPhoneColumn(df.cols[j].name) || df.cols[j].dtype == Object) && SharedName(df.cols, j))
       || (!IsPhoneColumn(df.cols[j].name) && df.cols[j].dtype == Object && NoStrings(df.cols[j])))
  }

  /** After the phone pass a phone column holds only strings, so `.str` accepts it. */
  lemma PhonePassHasText(col: Column)
    ensures IsPhoneColumn(col.name) ==> !NoStrings(PhonePass(col))
  {
    if IsPhoneColumn(col.name) && |col.cells| > 0 {
      assert PhonePass(col).cells[0].Str?;
    }
  }

  /** A frame of one column whose values are all missing never makes `clean_dataframe` raise. */
  lemma AllMissingPasses(df: Frame)
    requires |df.cols| == 1 && forall i :: 0 <= i < |df.cols[0].cells| ==> df.cols[0].cells[i] == Null
    ensures !CleanFails(df)
  {
    assert !SharedName(df.cols, 0);
    assert !NoStrings(df.cols[0]);
  }

  /** The first loop of `clean_dataframe` on one column. */
  function PhonePass(col: Column): Column {
    if IsPhoneColumn(col.name) then
      Column(col.name, Object, seq(|col.cells|, i requires 0 <= i < |col.cells| => PhoneCell(col.cells[i])))
    else col
  }

  /** The second loop of `clean_dataframe` on one column. */
  function StripPass(col: Column): Column {
    if col.dtype == Object then
      col.(cells := seq(|col.cells|, i requires 0 <= i < |col.cells| => StripCell(col.cells[i])))
    else col
  }

  /**
   * One column after `clean_dataframe`: a phone column holds only text, with
   * any `ph:` prefix removed and trimmed (a missing value shows as `None`);
   * the strings of any other object column are trimmed and its non-strings
   * are missing; every other column is left as it was.
   */
  function CleanColumn(col: Column): (r: Column)
    ensures r.name == col.name && |r.cells| == |col.cells|
    ensures IsPhoneColumn(col.name) ==>
              r.dtype == Object && forall i :: 0 <= i < |col.cells| ==> r.cells[i] == PhoneCell(col.cells[i])
    ensures !IsPhoneColumn(col.name) && col.dtype == Object ==>
              r.dtype == Object && forall i :: 0 <= i < |col.cells| ==> r.cells[i] == StripCell(col.cells[i])
    ensures !IsPhoneColumn(col.name) && col.dtype != Object ==> r == col
  {
    var p := PhonePass(col);
    if IsPhoneColumn(col.name) then
      PhoneThenStrip(col);
      StripPass(p)
    else StripPass(p)
  }

  /** The second loop leaves a phone column as the first loop made it. */
  lemma PhoneThenStrip(col: Column)
    requires IsPhoneColumn(col.name)
    ensures StripPass(PhonePass(col)) == PhonePass(col)
  {
    var p := PhonePass(col);
    forall i | 0 <= i < |col.cells| ensures StripCell(p.cells[i]) == p.cells[i] {
      PhoneCellStripped(col.cells[i]);
    }
    assert StripPass(p).cells == p.cells;
  }

  /** `clean_dataframe`: `None` when it raises; otherwise every column cleaned, names and row count unchanged. */
  function Cleaned(df: Frame): (r: Option<Frame>)
    ensures r.None? <==> CleanFails(df)
    ensures r.Some? ==> r.value.nrows == df.nrows && r.value.Names() == df.Names()
    ensures r.Some? && df.Valid() ==> r.value.Valid()
  {
    if CleanFails(df) then None
    else Some(Frame(df.nrows, seq(|df.cols|, j requires 0 <= j < |df.cols| => CleanColumn(df.cols[j]))))
  }

  /** Cleaning twice is not cleaning once: a prefix hidden behind leading spaces only goes the second time. */
  lemma CleanNotIdempotent()
    ensures var once := PhoneCell(Str("  Ph: 555"));
            once == Str("Ph: 555") && PhoneCell(once) == Str("555")
  {
    PaddedPrefixFirst();
    PaddedPrefixSecond();
  }

  /** The first pass: no prefix at the very start, so only the padding goes. */
  lemma PaddedPrefixFirst()
    ensures PhoneCell(Str("  Ph: 555")) == Str("Ph: 555")
  {
    var s := "  Ph: 555";
    assert !HasPhPrefix(s);
    PaddedPrefixStrip();
  }

  lemma PaddedPrefixStrip()
    ensures Strip("  Ph: 555") == "Ph: 555"
  {
    var s := "  Ph: 555";
    assert LeadingSpaces(s[2..]) == 0;
    assert LeadingSpaces(s[1..]) == 1 by {
      assert s[1..][1..] == s[2..];
    }
    assert LeadingSpaces(s) == 2;
    assert s[2..] == "Ph: 555";
    StripPhText();
  }

  lemma StripPhText()
    ensures TrailingSpaces("Ph: 555") == 0
  {
  }

  /** The second pass: now the prefix and the space after it go. */
  lemma PaddedPrefixSecond()
    ensures PhoneCell(Str("Ph: 555")) == Str("555")
  {
    var t := "Ph: 555";
    assert HasPhPrefix(t);
    assert t[3..] == " 555";
    assert LeadingSpaces(" 555"[1..]) == 0;
    assert LeadingSpaces(" 555") == 1;
    assert " 555"[1..] == "555";
    assert DropPhPrefix(t) == "555";
    StripNoSpace("555");
  }

  /**
   * `clean_dataframe` as the source runs it: the phone columns first, then
   * the object columns, each reassigned in place.
   */
  method CleanDataframe(df: Frame) returns (r: Option<Frame>)
    ensures r == Cleaned(df)
  {
    var cols := PhoneLoop(df);
    if cols.None? {
      return None;
    }
    r := StripLoop(df, cols.value);
  }

  /** The first loop of `clean_dataframe`: `None` when it raises, else the columns after it. */
  method PhoneLoop(df: Frame) returns (r: Option<seq<Column>>)
    ensures r.None? ==> CleanFails(df)
    ensures r.Some? ==> && |r.value| == |df.cols|
                        && (forall m :: 0 <= m < |df.cols| ==> r.value[m] == PhonePass(df.cols[m]))
                        && (forall m :: 0 <= m < |df.cols| ==> !(IsPhoneColumn(df.cols[m].name) && SharedName(df.cols, m)))
  {
    var cols := df.cols;
    var j := 0;
    while j < |cols|
      invariant 0 <= j <= |cols| && |cols| == |df.cols|
      invariant forall m :: 0 <= m < |cols| ==> cols[m].name == df.cols[m].name
      invariant forall m :: 0 <= m < j ==> cols[m] == PhonePass(df.cols[m])
      invariant forall m :: j <= m < |cols| ==> cols[m] == df.cols[m]
      invariant forall m :: 0 <= m < j ==> !(IsPhoneColumn(df.cols[m].name) && SharedName(df.cols, m))
    {
      if IsPhoneColumn(cols[j].name) {
        var shared := Shared(cols, j);
        if shared {
          assert SharedName(df.cols, j);
          return None;
        }
        cols := cols[j := PhonePass(cols[j])];
      }
      j := j + 1;
    }
    r := Some(cols);
  }

  /** The second loop of `clean_dataframe`, over the columns the first one left. */
  method StripLoop(df: Frame, phoned: seq<Column>) returns (r: Option<Frame>)
    requires |phoned| == |df.cols|
    requires forall m :: 0 <= m < |df.cols| ==> phoned[m] == PhonePass(df.cols[m])
    requires forall m :: 0 <= m < |df.cols| ==> !(IsPhoneColumn(df.cols[m].name) && SharedName(df.cols, m))
    ensures r == Cleaned(df)
  {
    var cols := phoned;
    var j := 0;
    while j < |cols|
      invariant 0 <= j <= |cols| && |cols| == |df.cols|
      invariant forall m :: 0 <= m < |cols| ==> cols[m].name == df.cols[m].name
      invariant forall m :: 0 <= m < j ==> cols[m] == CleanColumn(df.cols[m])
      invariant forall m :: j <= m < |cols| ==> cols[m] == PhonePass(df.cols[m])
      invariant forall m :: 0 <= m < j ==> !(df.cols[m].dtype == Object && SharedName(df.cols, m))
      invariant forall m :: 0 <= m < j ==> !(!IsPhoneColumn(df.cols[m].name) && df.cols[m].dtype == Object && NoStrings(df.cols[m]))
    {
      if cols[j].dtype == Object {
        var shared := Shared(cols, j);
        if shared {
          assert SharedName(df.cols, j);
          return None;
        }
        var stringless := StringLess(cols[j]);
        if stringless {
          PhonePassHasText(df.cols[j]);
          assert !IsPhoneColumn(df.cols[j].name) && NoStrings(df.cols[j]);
          return None;
        }
        cols := cols[j := StripPass(cols[j])];
      }
      j := j + 1;
    }
    r := Some(Frame(df.nrows, cols));
    assert cols == seq(|df.cols|, m requires 0 <= m < |df.cols| => CleanColumn(df.cols[m]));
  }

  /** Whether the column's present values hold no string (pandas' type inference, cell by cell). */
  method StringLess(col: Column) returns (b: bool)
    ensures b <==> NoStrings(col)
  {
    var present, text := false, false;
    for i := 0 to |col.cells|
      invariant present <==> exists m :: 0 <= m < i && !col.cells[m].Null?
      invariant text <==> exists m :: 0 <= m < i && col.cells[m].Str?
    {
      if col.cells[i].Str? {
        text := true;
      }
      if !col.cells[i].Null? {
        present := true;
      }
    }
    b := present && !text;
  }

  /** Whether another column carries the same text (pandas' duplicate-text test, column by column). */
  method Shared(cols: seq<Column>, j: nat) returns (b: bool)
    requires j < |cols|
    ensures b <==> SharedName(cols, j)
  {
    b := false;
    for i := 0 to |cols|
      invariant b <==> exists m :: 0 <= m < i && m != j && cols[m].name == cols[j].name
    {
      if i != j && cols[i].name == cols[j].name {
        b := true;
      }
    }
  }

  // ---------------------------------------------------------- custom schema

  /**
   * `map_custom_columns`: rename the known headers that are present, then keep
   * exactly the custom-schema columns present, in schema order.
   */
  function MapCustomColumns(df: Frame): (r: Frame)
    ensures r.nrows == df.nrows
    ensures forall c :: c in r.cols <==> c in Rename(df, ExcelToCustom).cols && c.name in CustomNames()
    ensures df.Valid() ==> r.Valid()
  {
    var renameMap := map k | k in ExcelToCustom && k in df.Names() :: ExcelToCustom[k];
    var renamed := Rename(df, renameMap);
    RenameRestricted(df, ExcelToCustom);
    Select(renamed, Present(CustomNames(), renamed.Names()))
  }

  /** When the renamed headers are distinct, the result's columns are the schema names present, in schema order. */
  lemma MapCustomOrder(df: Frame)
    requires Distinct(Rename(df, ExcelToCustom).Names())
    ensures MapCustomColumns(df).Names() == Present(CustomNames(), Rename(df, ExcelToCustom).Names())
  {
    RenameRestricted(df, ExcelToCustom);
    var renamed := Rename(df, ExcelToCustom);
    SelectDistinct(renamed, Present(CustomNames(), renamed.Names()));
  }

  /** A column under a known spreadsheet header is kept, with its cells, under its custom name. */
  lemma MapCustomKeepsKnown(df: Frame, j: nat)
    requires j < |df.cols| && df.cols[j].name in ExcelToCustom
    ensures df.cols[j].(name := ExcelToCustom[df.cols[j].name]) in MapCustomColumns(df).cols
  {
    ExcelToCustomTargets();
    var renamed := Rename(df, ExcelToCustom);
    assert renamed.cols[j] in renamed.cols;
  }

  // ---------------------------------------------------------------- reading

  /**
   * `read_file`: dispatch on the lowercased extension, `None` for an
   * unsupported one (the ValueError, raised before anything is read). A
   * preview limit of `None` or 0 reads every row.
   */
  function ReadFile(path: string, previewRows: Option<nat>, contents: Frame): (r: Option<(Reader, Frame)>)
    requires contents.Valid()
    ensures r.None? <==> Lower(Extension(path)) !in {".csv", ".xlsx", ".xls"}
    ensures r.Some? ==> r.value.1.Names() == contents.Names() && r.value.1.Valid()
    ensures r.Some? && (previewRows == None || previewRows == Some(0)) ==> r.value.1 == contents
    ensures r.Some? && previewRows.Some? && previewRows.value > 0 ==> r.value.1 == Head(contents, previewRows.value)
  {
    var ext := Lower(Extension(path));
    var df := if previewRows.Some? && previewRows.value != 0 then Head(contents, previewRows.value) else contents;
    if ext == ".csv" then Some((Csv, df))
    else if ext == ".xlsx" then Some((Openpyxl, df))
    else if ext == ".xls" then Some((Xlrd, df))
    else None
  }

  /**
   * For a file name ending in an extension, the reader is chosen by that
   * extension in any letter case: `.csv` by the csv reader, `.xlsx` by
   * openpyxl, `.xls` by xlrd, and anything else is refused.
   */
  lemma ReadFileByExtension(stem: string, ext: string, previewRows: Option<nat>, contents: Frame)
    requires contents.Valid() && stem != [] && NameChar(stem[|stem| - 1]) && IsExtension(ext)
    ensures var r := ReadFile(stem + ext, previewRows, contents);
            && (r.None? <==> Lower(ext) !in {".csv", ".xlsx", ".xls"})
            && (Lower(ext) == ".csv" ==> r.Some? && r.value.0 == Csv)
            && (Lower(ext) == ".xlsx" ==> r.Some? && r.value.0 == Openpyxl)
            && (Lower(ext) == ".xls" ==> r.Some? && r.value.0 == Xlrd)
  {
    SplitExtOfJoin(stem, ext);
  }
}
