/**
 * The fixed target schema both GUI drafts can switch to
 * (`USE_CUSTOM_COLUMNS`): six column definitions in declaration order, and
 * the spreadsheet headers that are renamed onto them.
 */
module Custom {
  import opened Sql

  /** `CUSTOM_COLUMNS`, in dict order. */
  const CustomColumns: seq<ColumnDef> := [
    ColumnDef("contact_person", "NVARCHAR(255)"),
    ColumnDef("company", "NVARCHAR(255)"),
    ColumnDef("email", "NVARCHAR(255)"),
    ColumnDef("phone", "NVARCHAR(50)"),
    ColumnDef("city", "NVARCHAR(100)"),
    ColumnDef("zip", "NVARCHAR(20)")
  ]

  /** `list(CUSTOM_COLUMNS)` */
  function CustomNames(): (r: seq<string>)
    ensures |r| == |CustomColumns|
    ensures forall i :: 0 <= i < |r| ==> r[i] == CustomColumns[i].name
  {
    seq(|CustomColumns|, i requires 0 <= i < |CustomColumns| => CustomColumns[i].name)
  }

  /** `EXCEL_TO_CUSTOM_MAP` */
  const ExcelToCustom: map<string, string> := map[
    "person" := "contact_person",
    "companyname" := "company",
    "emailid" := "email",
    "tel" := "phone",
    "location" := "city",
    "pincode" := "zip"
  ]

  /** Every header the map renames lands on a column of the custom schema, and no two on the same one. */
  lemma ExcelToCustomTargets()
    ensures forall k :: k in ExcelToCustom ==> ExcelToCustom[k] in CustomNames()
    ensures forall k1, k2 :: k1 in ExcelToCustom && k2 in ExcelToCustom && k1 != k2 ==> ExcelToCustom[k1] != ExcelToCustom[k2]
  {
    var names := CustomNames();
    assert names == ["contact_person", "company", "email", "phone", "city", "zip"];
  }

  /** No custom column name holds `]` and no custom type holds a comma, so the CREATE TABLE text reads back. */
  lemma CustomColumnsPlain()
    ensures forall i :: 0 <= i < |CustomColumns| ==> ']' !in CustomColumns[i].name && ',' !in CustomColumns[i].sqlType
  {
    assert ']' !in "contact_person" && ']' !in "company" && ']' !in "email";
    assert ']' !in "phone" && ']' !in "city" && ']' !in "zip";
    assert ',' !in "NVARCHAR(255)" && ',' !in "NVARCHAR(50)" && ',' !in "NVARCHAR(100)" && ',' !in "NVARCHAR(20)";
  }
}
