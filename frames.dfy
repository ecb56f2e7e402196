/**
 * The tabular value the importer moves around: a pandas DataFrame reduced to
 * what the import logic looks at. A frame is an ordered list of named
 * columns, each tagged with its pandas dtype and holding one cell per row.
 */
module Frames {
  import opened Strings

  /** The pandas dtypes the import logic distinguishes (all others behave like `Bool` here). */
  datatype Dtype = Int64 | UInt64 | Float64 | Datetime64 | Bool | Object

  /**
   * One cell. Every missing value (None, NaN, NaT) is `Null`; `Scalar` is a
   * float, timestamp or boolean, carrying the text Python's `str()` gives it.
   */
  datatype Cell = Null | Str(s: string) | Int(i: int) | Scalar(shown: string)

  /** Python's `str(x)` of a cell; `str(None) == "None"`. */
  function Show(c: Cell): string {
    match c
    case Null => "None"
    case Str(s) => s
    case Int(i) => IntToString(i)
    case Scalar(shown) => shown
  }

  datatype Column = Column(name: string, dtype: Dtype, cells: seq<Cell>)

  type Row = seq<Cell>

  function ColNames(cols: seq<Column>): (r: seq<string>)
    ensures |r| == |cols|
    ensures forall j :: 0 <= j < |cols| ==> r[j] == cols[j].name
  {
    seq(|cols|, j requires 0 <= j < |cols| => cols[j].name)
  }

  datatype Frame = Frame(nrows: nat, cols: seq<Column>) {

    /** All columns have one cell per row. */
    predicate Valid() {
      forall j :: 0 <= j < |cols| ==> |cols[j].cells| == nrows
    }

    /** `df.columns.tolist()` */
    function Names(): seq<string> {
      ColNames(cols)
    }

    /** `df.values.tolist()`: the rows, each with one cell per column, in column order. */
    function Rows(): (r: seq<Row>)
      requires Valid()
      ensures |r| == nrows
      ensures forall i :: 0 <= i < nrows ==> |r[i]| == |cols|
      ensures forall i, j :: 0 <= i < nrows && 0 <= j < |cols| ==> r[i][j] == cols[j].cells[i]
    {
      seq(nrows, i requires 0 <= i < nrows => seq(|cols|, j requires 0 <= j < |cols| => cols[j].cells[i]))
    }
  }

  /** `df.columns = [f(c) for c in df.columns]` */
  function RenameAll(df: Frame, f: string -> string): (r: Frame)
    ensures r.nrows == df.nrows && |r.cols| == |df.cols|
    ensures forall j :: 0 <= j < |df.cols| ==> r.cols[j] == df.cols[j].(name := f(df.cols[j].name))
    ensures df.Valid() ==> r.Valid()
  {
    Frame(df.nrows, seq(|df.cols|, j requires 0 <= j < |df.cols| => df.cols[j].(name := f(df.cols[j].name))))
  }

  /** The name a column gets under `df.rename(columns=m)`. */
  function Renamed(m: map<string, string>, name: string): string {
    if name in m then m[name] else name
  }

  /** `df.rename(columns=m)`: keys of `m` that name no column are ignored. */
  function Rename(df: Frame, m: map<string, string>): (r: Frame)
    ensures r.nrows == df.nrows && |r.cols| == |df.cols|
    ensures forall j :: 0 <= j < |df.cols| ==> r.cols[j] == df.cols[j].(name := Renamed(m, df.cols[j].name))
    ensures df.Valid() ==> r.Valid()
  {
    RenameAll(df, name => Renamed(m, name))
  }

  /** The columns of `cols` whose names are not in `ks`, in their order. */
  function Without(cols: seq<Column>, ks: set<string>): (r: seq<Column>)
    ensures forall c :: c in r ==> c in cols && c.name !in ks
    ensures forall c :: c in cols && c.name !in ks ==> c in r
  {
    if cols == [] then []
    else (if cols[0].name in ks then [] else [cols[0]]) + Without(cols[1..], ks)
  }

  /** `df.drop(columns=ks, errors="ignore")`: removes every column carrying one of the names. */
  function Drop(df: Frame, ks: set<string>): (r: Frame)
    ensures r.nrows == df.nrows
    ensures forall c :: c in r.cols <==> c in df.cols && c.name !in ks
    ensures r.cols == Without(df.cols, ks)
    ensures df.Valid() ==> r.Valid()
  {
    Frame(df.nrows, Without(df.cols, ks))
  }

  /** The columns of `cols` named `k`, in their order (pandas returns all of them when labels repeat). */
  function Matching(cols: seq<Column>, k: string): (r: seq<Column>)
    ensures forall c :: c in r <==> c in cols && c.name == k
  {
    if cols == [] then []
    else (if cols[0].name == k then [cols[0]] else []) + Matching(cols[1..], k)
  }

  /** `df[keep]`: for each name of `keep` in turn, the columns carrying it. */
  function SelectCols(cols: seq<Column>, keep: seq<string>): (r: seq<Column>)
    ensures forall c :: c in r <==> c in cols && c.name in keep
  {
    if keep == [] then [] else Matching(cols, keep[0]) + SelectCols(cols, keep[1..])
  }

  function Select(df: Frame, keep: seq<string>): (r: Frame)
    ensures r.nrows == df.nrows
    ensures forall c :: c in r.cols <==> c in df.cols && c.name in keep
    ensures r.cols == SelectCols(df.cols, keep)
    ensures df.Valid() ==> r.Valid()
  {
    Frame(df.nrows, SelectCols(df.cols, keep))
  }

  /** `[k for k in keep if k in names]` */
  function Present(keep: seq<string>, names: seq<string>): (r: seq<string>)
    ensures forall k :: k in r <==> k in keep && k in names
  {
    if keep == [] then [] else (if keep[0] in names then [keep[0]] else []) + Present(keep[1..], names)
  }

  /**
   * `Without` keeps order and multiplicity: it works column by column, so
   * the columns that remain are those of `cols`, in their order.
   */
  lemma {:induction false} WithoutAppend(a: seq<Column>, b: seq<Column>, ks: set<string>)
    ensures Without(a + b, ks) == Without(a, ks) + Without(b, ks)
    ensures forall c :: Without([c], ks) == if c.name in ks then [] else [c]
    decreases |a|
  {
    forall c ensures Without([c], ks) == if c.name in ks then [] else [c] {
      assert [c][1..] == [];
    }
    if a == [] {
      assert a + b == b;
    } else {
      var ab := a + b;
      assert ab[0] == a[0] && ab[1..] == a[1..] + b;
      WithoutAppend(a[1..], b, ks);
      calc {
        Without(ab, ks);
        (if a[0].name in ks then [] else [a[0]]) + Without(a[1..] + b, ks);
        (if a[0].name in ks then [] else [a[0]]) + (Without(a[1..], ks) + Without(b, ks));
      }
    }
  }

  /** `df[k]` keeps frame order: the columns named `k` of `a + b` are those of `a`, then those of `b`. */
  lemma {:induction false} MatchingAppend(a: seq<Column>, b: seq<Column>, k: string)
    ensures Matching(a + b, k) == Matching(a, k) + Matching(b, k)
    decreases |a|
  {
    if a == [] {
      assert a + b == b;
    } else {
      var ab := a + b;
      var head := if a[0].name == k then [a[0]] else [];
      assert Matching(ab, k) == head + Matching(a[1..] + b, k) by {
        assert ab[0] == a[0] && ab[1..] == a[1..] + b;
      }
      MatchingAppend(a[1..], b, k);
      assert Matching(a, k) == head + Matching(a[1..], k);
    }
  }

  /** A single column is kept exactly when it carries the name. */
  lemma MatchingOne(c: Column, k: string)
    ensures Matching([c], k) == if c.name == k then [c] else []
  {
    assert [c][1..] == [];
  }

  /** `df[keep]` takes the names of `keep` in turn, each giving its columns in frame order. */
  lemma {:induction false} SelectColsAppend(cols: seq<Column>, k1: seq<string>, k2: seq<string>)
    ensures SelectCols(cols, k1 + k2) == SelectCols(cols, k1) + SelectCols(cols, k2)
    ensures forall k :: SelectCols(cols, [k]) == Matching(cols, k)
    decreases |k1|
  {
    if k1 == [] {
      assert k1 + k2 == k2;
    } else {
      assert (k1 + k2)[1..] == k1[1..] + k2;
      SelectColsAppend(cols, k1[1..], k2);
    }
  }

  /** The comprehension keeps the order of `keep`, dropping the names that are absent. */
  lemma {:induction false} PresentAppend(k1: seq<string>, k2: seq<string>, names: seq<string>)
    ensures Present(k1 + k2, names) == Present(k1, names) + Present(k2, names)
    ensures forall k :: Present([k], names) == if k in names then [k] else []
    decreases |k1|
  {
    if k1 == [] {
      assert k1 + k2 == k2;
    } else {
      assert (k1 + k2)[1..] == k1[1..] + k2;
      PresentAppend(k1[1..], k2, names);
    }
  }

  predicate Distinct(names: seq<string>) {
    forall i, j :: 0 <= i < j < |names| ==> names[i] != names[j]
  }

  /** Restricting a rename map to the names a frame has changes nothing. */
  lemma RenameRestricted(df: Frame, m: map<string, string>)
    ensures Rename(df, map k | k in m && k in df.Names() :: m[k]) == Rename(df, m)
  {
    var m' := map k | k in m && k in df.Names() :: m[k];
    var a := Rename(df, m');
    var b := Rename(df, m);
    forall j | 0 <= j < |df.cols|
      ensures a.cols[j] == b.cols[j]
    {
      assert df.Names()[j] == df.cols[j].name;
    }
  }

  /** No column carries the name: `df[k]` is empty. */
  lemma {:induction false} MatchingNone(cols: seq<Column>, k: string)
    requires forall c :: c in cols ==> c.name != k
    ensures Matching(cols, k) == []
    decreases |cols|
  {
    if cols != [] {
      assert cols[0] in cols;
      assert forall c :: c in cols[1..] ==> c in cols;
      MatchingNone(cols[1..], k);
    }
  }

  lemma {:induction false} MatchingDistinct(cols: seq<Column>, j: nat)
    requires j < |cols|
    requires Distinct(ColNames(cols))
    ensures Matching(cols, cols[j].name) == [cols[j]]
    decreases |cols|
  {
    if j == 0 {
      assert forall c :: c in cols[1..] ==> c.name != cols[0].name;
      MatchingNone(cols[1..], cols[0].name);
    } else {
      assert ColNames(cols[1..]) == ColNames(cols)[1..];
      MatchingDistinct(cols[1..], j - 1);
    }
  }

  lemma {:induction false} SelectColsDistinct(cols: seq<Column>, keep: seq<string>)
    requires Distinct(ColNames(cols))
    requires forall k :: k in keep ==> k in ColNames(cols)
    ensures ColNames(SelectCols(cols, keep)) == keep
    decreases |keep|
  {
    if keep != [] {
      var names := ColNames(cols);
      assert keep[0] in keep;
      assert keep[0] in names;
      var j := NameIndex(names, keep[0]);
      MatchingDistinct(cols, j);
      assert forall k :: k in keep[1..] ==> k in keep;
      SelectColsDistinct(cols, keep[1..]);
      var rest := SelectCols(cols, keep[1..]);
      assert SelectCols(cols, keep) == [cols[j]] + rest;
      ColNamesCons(cols[j], rest);
    }
  }

  /** A position of `k` in `names`. */
  lemma NameIndex(names: seq<string>, k: string) returns (j: nat)
    requires k in names
    ensures j < |names| && names[j] == k
  {
    j :| 0 <= j < |names| && names[j] == k;
  }

  lemma ColNamesCons(c: Column, rest: seq<Column>)
    ensures ColNames([c] + rest) == [c.name] + ColNames(rest)
  {
    var a := ColNames([c] + rest);
    var b := [c.name] + ColNames(rest);
    assert |a| == |b|;
    forall i | 0 <= i < |a|
      ensures a[i] == b[i]
    {
      if i > 0 {
        assert ([c] + rest)[i] == rest[i - 1];
      }
    }
  }

  /**
   * With distinct column names, `df[keep]` holds one column per name of
   * `keep`, in the order of `keep`.
   */
  lemma SelectDistinct(df: Frame, keep: seq<string>)
    requires Distinct(df.Names())
    requires forall k :: k in keep ==> k in df.Names()
    ensures Select(df, keep).Names() == keep
  {
    SelectColsDistinct(df.cols, keep);
  }

  function Min(a: nat, b: nat): nat {
    if a <= b then a else b
  }

  /** The first `n` rows of a frame, or all of them when it has fewer. */
  function Head(df: Frame, n: nat): (r: Frame)
    requires df.Valid()
    ensures r.Valid() && r.nrows == Min(n, df.nrows) && r.Names() == df.Names()
    ensures forall j :: 0 <= j < |df.cols| ==> r.cols[j].dtype == df.cols[j].dtype
    ensures forall j :: 0 <= j < |df.cols| ==> r.cols[j].cells == df.cols[j].cells[..r.nrows]
  {
    var k := Min(n, df.nrows);
    Frame(k, seq(|df.cols|, j requires 0 <= j < |df.cols| => df.cols[j].(cells := df.cols[j].cells[..k])))
  }

  /** The library that parses a file. */
  datatype Reader = Csv | Openpyxl | Xlrd
}
