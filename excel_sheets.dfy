/** The worksheet as the spreadsheet compiler sees it, and the reading of its
    three header rows (EditorUtils.ReadExcelSheets): row 0 holds comments,
    row 1 field names, row 2 field types; data starts at row 3. */
module ExcelSheets {
  import opened Text

  /** The cached value of a formula cell: a number, a string, or a Boolean
      or error value (OtherResult), which has no string value. */
  datatype FormulaResult = NumericResult(text: string) | StringResult(text: string) | OtherResult

  /** A cell: its ICell.ToString() text, and for a formula cell its cached
      result. */
  datatype Cell = Cell(text: string, cached: Option<FormulaResult>)

  /** A row: GetCell(j) is `cells[j]`, None where the cell is missing;
      LastCellNum is |cells|. */
  type Row = seq<Option<Cell>>

  /** A sheet: GetRow(i) is `rows[i]`, None where the row is missing;
      LastRowNum is |rows| - 1. */
  datatype Sheet = Sheet(name: string, rows: seq<Option<Row>>)

  /** One column of the header (EditorUtils.PropertyInfo). */
  datatype Property = Property(name: string, typeName: string, comment: string)

  datatype HeaderError =
    | NullReference              // a header row or cell the code dereferences is missing
    | FirstColumnNotId(found: string)

  datatype Result<+T> = Ok(value: T) | Err(error: HeaderError)

  function RowAt(sheet: Sheet, i: nat): Option<Row> {
    if i < |sheet.rows| then sheet.rows[i] else None
  }

  function CellIn(row: Option<Row>, j: nat): Option<Cell> {
    if row.Some? && j < |row.value| then row.value[j] else None
  }

  /** `prefix` in front of a successful column list; errors pass through. */
  function Then(prefix: seq<Property>, r: Result<seq<Property>>): Result<seq<Property>> {
    match r
    case Ok(ps) => Ok(prefix + ps)
    case Err(e) => Err(e)
  }

  /** The three trimmed texts of column `j`, if all three cells exist. */
  function ColumnAt(comments: Option<Row>, fields: Row, types: Option<Row>, j: nat): Option<Property> {
    var c, f, t := CellIn(comments, j), CellIn(Some(fields), j), CellIn(types, j);
    if c.None? || f.None? || t.None? then None
    else Some(Property(Trim(f.value.text), Trim(t.value.text), Trim(c.value.text)))
  }

  /** Column `j` of the header for every column of the field row. */
  function HeaderColumns(comments: Option<Row>, fields: Row, types: Option<Row>): (cols: seq<Option<Property>>)
    ensures |cols| == |fields|
  {
    seq(|fields|, j requires 0 <= j < |fields| => ColumnAt(comments, fields, types, j))
  }

  /** The column loop from column `i`: stop at the first column with an
      empty name or type; a missing cell before that is a null
      dereference. */
  function Columns(cols: seq<Option<Property>>, i: nat): Result<seq<Property>>
    decreases |cols| - i
  {
    if i >= |cols| then Ok([])
    else
      match cols[i]
      case None => Err(NullReference)
      case Some(p) =>
        if p.name == "" || p.typeName == "" then Ok([])
        else Then([p], Columns(cols, i + 1))
  }

  /** The header check and the property list of ReadExcelSheets. */
  function ReadHeader(sheet: Sheet): Result<seq<Property>> {
    var fields := RowAt(sheet, 1);
    if fields.None? then Err(NullReference)
    else
      var rowId := CellIn(fields, 0);
      if rowId.None? then Err(NullReference)
      else if rowId.value.text != "id" then Err(FirstColumnNotId(rowId.value.text))
      else Columns(HeaderColumns(RowAt(sheet, 0), fields.value, RowAt(sheet, 2)), 0)
  }

  /** The header part of EditorUtils.ReadExcelSheets, with its loop. */
  method ReadProperties(sheet: Sheet) returns (r: Result<seq<Property>>)
    ensures r == ReadHeader(sheet)
  {
    var rowComment := RowAt(sheet, 0);
    var row := RowAt(sheet, 1);
    var rowType := RowAt(sheet, 2);
    if row.None? {
      return Err(NullReference);
    }
    var rowId := CellIn(row, 0);
    if rowId.None? {
      return Err(NullReference);
    }
    if rowId.value.text != "id" {
      return Err(FirstColumnNotId(rowId.value.text));
    }
    var fields := row.value;
    var properties: seq<Property> := [];
    ghost var cols := HeaderColumns(rowComment, fields, rowType);
    var i := 0;
    ThenNothing(Columns(cols, 0));
    while i < |fields|
      invariant 0 <= i <= |fields|
      invariant Columns(cols, 0) == Then(properties, Columns(cols, i))
      decreases |fields| - i
    {
      var commentCell := CellIn(rowComment, i);
      var fieldCell := CellIn(row, i);
      var typeCell := CellIn(rowType, i);
      if commentCell.None? || fieldCell.None? || typeCell.None? {
        return Err(NullReference);
      }
      var comment := Trim(commentCell.value.text);
      var field := Trim(fieldCell.value.text);
      var typeName := Trim(typeCell.value.text);
      var p := Property(field, typeName, comment);
      assert cols[i] == Some(p);
      if field == "" || typeName == "" {
        assert Columns(cols, i) == Ok([]);
        assert properties + [] == properties;
        break;
      }
      assert Columns(cols, i) == Then([p], Columns(cols, i + 1));
      ThenAssoc(properties, [p], Columns(cols, i + 1));
      properties := properties + [p];
      i := i + 1;
    }
    if i == |fields| {
      assert properties + [] == properties;
    }
    return Ok(properties);
  }

  lemma ThenNothing(r: Result<seq<Property>>)
    ensures Then([], r) == r
  {
    if r.Ok? {
      assert [] + r.value == r.value;
    }
  }

  lemma ThenAssoc(a: seq<Property>, b: seq<Property>, r: Result<seq<Property>>)
    ensures Then(a, Then(b, r)) == Then(a + b, r)
  {
    if r.Ok? {
      assert a + (b + r.value) == (a + b) + r.value;
    }
  }

  /** A column the loop accepts: all three cells exist and the trimmed name
      and type are non-empty. */
  predicate Accepted(col: Option<Property>) {
    col.Some? && col.value.name != "" && col.value.typeName != ""
  }

  /** The property list is the run of accepted columns from `i`, in column
      order, and it ends at the end of the field row or at a column whose
      cells exist but whose trimmed name or type is empty. */
  lemma {:induction false} ColumnsAreLeadingRun(cols: seq<Option<Property>>, i: nat)
    requires i <= |cols| && Columns(cols, i).Ok?
    ensures i + |Columns(cols, i).value| <= |cols|
    ensures forall j :: i <= j < i + |Columns(cols, i).value| ==>
      Accepted(cols[j]) && Columns(cols, i).value[j - i] == cols[j].value
    ensures var n := i + |Columns(cols, i).value|;
      n < |cols| ==> cols[n].Some? && !Accepted(cols[n])
    decreases |cols| - i
  {
    var ps := Columns(cols, i).value;
    if i < |cols| && Accepted(cols[i]) {
      ColumnsAreLeadingRun(cols, i + 1);
      var rest := Columns(cols, i + 1).value;
      assert ps == [cols[i].value] + rest;
      forall j | i <= j < i + |ps|
        ensures Accepted(cols[j]) && ps[j - i] == cols[j].value
      {
        if j > i {
          assert ps[j - i] == rest[j - (i + 1)];
        }
      }
    }
  }

  /** A sheet passes the header check only if cell 0 of the field row reads
      exactly "id"; when the first column also has a type, the first
      property is that id column. */
  lemma HeaderStartsWithId(sheet: Sheet)
    requires ReadHeader(sheet).Ok?
    ensures CellIn(RowAt(sheet, 1), 0).Some? && CellIn(RowAt(sheet, 1), 0).value.text == "id"
    ensures |ReadHeader(sheet).value| > 0 ==> ReadHeader(sheet).value[0].name == "id"
  {
    var comments, fields, types := RowAt(sheet, 0), RowAt(sheet, 1).value, RowAt(sheet, 2);
    var cols := HeaderColumns(comments, fields, types);
    var ps := Columns(cols, 0).value;
    assert ReadHeader(sheet).value == ps;
    if |ps| > 0 {
      ColumnsAreLeadingRun(cols, 0);
      assert ps[0 - 0] == cols[0].value;
      IdColumnName(comments, fields, types);
    }
  }

  lemma IdColumnName(comments: Option<Row>, fields: Row, types: Option<Row>)
    requires CellIn(Some(fields), 0).Some? && CellIn(Some(fields), 0).value.text == "id"
    requires ColumnAt(comments, fields, types, 0).Some?
    ensures ColumnAt(comments, fields, types, 0).value.name == "id"
  {
    TrimOfId();
  }

  lemma TrimOfId()
    ensures Trim("id") == "id"
  {
    var s := "id";
    assert IsTrimmed(s) by {
      assert s[0] == 'i' && s[|s| - 1] == 'd';
    }
    TrimOfTrimmed(s);
  }

  /** The class name generated for a workbook file. */
  function ClassName(fileName: string): string {
    fileName + "Config"
  }

  /** The payload name of one sheet, given its sanitised name. */
  function JsonName(fileName: string, sanitizedSheet: string): string {
    ClassName(fileName) + "_" + sanitizedSheet
  }

  /** The registry files a payload under the text before its first '_';
      that is the generated class name exactly when the workbook file name
      has no '_'. */
  lemma BucketKeyIsClassName(fileName: string, sanitizedSheet: string)
    ensures BeforeFirst(JsonName(fileName, sanitizedSheet), '_') == ClassName(fileName)
        <==> '_' !in fileName
  {
    var json := JsonName(fileName, sanitizedSheet);
    var cls := ClassName(fileName);
    assert '_' !in "Config";
    if '_' !in fileName {
      assert '_' !in cls;
      BeforeFirstOfPrefix(cls, '_', sanitizedSheet);
      assert json == cls + ['_'] + sanitizedSheet;
    } else {
      var k :| 0 <= k < |fileName| && fileName[k] == '_';
      var r := BeforeFirst(json, '_');
      assert json[k] == '_';
      assert |r| <= k;
    }
  }
}
