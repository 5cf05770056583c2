/** The data rows of one sheet turned into JSON objects and then into the
    id -> record dictionary that EditorUtils.GenerateConfigJson serialises.
    Each cell's text is coerced to a JSON fragment by the column's declared
    type; JSON deserialisation is a function parameter that may fail. */
module ConfigJson {
  import opened Text
  import opened CsvArray
  import opened ExcelSheets
  import opened Maps

  /** The text of a data cell before coercion: a numeric formula gives its
      cached number as text, a string formula its cached string and any
      other cell its ToString() text, the latter two with '\' doubled.  A
      formula with a Boolean or error result has no string value: reading
      it throws (Throws), so the empty text given here is never used. */
  function CellValue(c: Cell): string {
    match c.cached
    case Some(NumericResult(t)) => t
    case Some(StringResult(t)) => EscapeChar(t, '\\')
    case Some(OtherResult) => ""
    case None => EscapeChar(c.text, '\\')
  }

  /** Reading the string value of a formula cell whose cached result is a
      Boolean or an error throws, and nothing in GenerateConfigJson catches
      it: the export of the sheet ends there. */
  predicate Throws(c: Cell) {
    c.cached.Some? && c.cached.value.OtherResult?
  }

  /** An empty value stands for 0 except in text columns. */
  function Defaulted(value: string, typeName: string): string {
    if value == "" && typeName != "string" && typeName != "string[]" then "0" else value
  }

  /** A bool column: "true"/"false" in any case is lower-cased, "0" is false
      and any other text is true. */
  function BoolText(value: string): string {
    if Lower(value) != "true" && Lower(value) != "false" then
      (if value == "0" then "false" else "true")
    else Lower(value)
  }

  function JsonString(s: string): string {
    "\"" + EscapeChar(s, '"') + "\""
  }

  function JsonStrings(items: seq<string>): (r: seq<string>)
    ensures |r| == |items|
    ensures forall k :: 0 <= k < |items| ==> r[k] == JsonString(items[k])
  {
    seq(|items|, k requires 0 <= k < |items| => JsonString(items[k]))
  }

  /** The JSON fragment of a cell value in a column of type `typeName`. */
  function Coerce(value: string, typeName: string): string {
    var v := Defaulted(value, typeName);
    var v := if typeName == "bool" then BoolText(v) else v;
    if Contains(typeName, "[]") then
      if typeName == "string[]" then "[" + Join(JsonStrings(Parse(v)), ",") + "]"
      else "[" + v + "]"
    else JsonString(v)
  }

  function FieldText(p: Property, c: Cell): string {
    "\"" + p.name + "\":" + Coerce(CellValue(c), p.typeName)
  }

  /** The value of one cell, rewritten step by step by the column type as
      the cell loop of GenerateConfigJson does; None where reading the cell
      throws. */
  method CoerceCell(cell: Cell, typeName: string) returns (value: Option<string>)
    ensures value.None? <==> Throws(cell)
    ensures value.Some? ==> value.value == Coerce(CellValue(cell), typeName)
  {
    var text: string;
    if cell.cached.Some? {
      match cell.cached.value
      case NumericResult(t) =>
        text := t;
      case StringResult(t) =>
        text := EscapeChar(t, '\\');
      case OtherResult =>
        return None;
    } else {
      text := EscapeChar(cell.text, '\\');
    }
    if text == "" {
      if typeName != "string" && typeName != "string[]" {
        text := "0";
      }
    }
    if typeName == "bool" {
      if Lower(text) != "true" && Lower(text) != "false" {
        text := if text == "0" then "false" else "true";
      } else {
        text := Lower(text);
      }
    }
    if Contains(typeName, "[]") {
      if typeName == "string[]" {
        var parsedValues := ParseCsvStyleArray(text);
        text := "[" + Join(JsonStrings(parsedValues), ",") + "]";
      } else {
        text := "[" + text + "]";
      }
    } else {
      text := EscapeChar(text, '"');
      text := "\"" + text + "\"";
    }
    return Some(text);
  }

  /** A bool column always yields the quoted text "true" or "false", and
      "false" exactly for an empty cell, "0" or "false" in any case. */
  lemma BoolCoercion(value: string)
    ensures Coerce(value, "bool") == "\"true\"" || Coerce(value, "bool") == "\"false\""
    ensures Coerce(value, "bool") == "\"false\"" <==> value == "" || value == "0" || Lower(value) == "false"
  {
    NoBrackets("bool");
    var b := BoolText(Defaulted(value, "bool"));
    assert Coerce(value, "bool") == JsonString(b);
    BoolTextValues(value);
    EscapeCharAbsent(b, '"');
  }

  lemma BoolTextValues(value: string)
    ensures var b := BoolText(Defaulted(value, "bool"));
      && (b == "true" || b == "false")
      && (b == "false" <==> value == "" || value == "0" || Lower(value) == "false")
  {
    assert Lower("0") == "0" by { assert Lower("0")[0] == AsciiLower('0'); }
  }

  /** A type name without '[' is not an array type. */
  lemma NoBrackets(typeName: string)
    requires '[' !in typeName
    ensures !Contains(typeName, "[]")
  {
    forall k | 0 <= k <= |typeName| ensures !StartsWith(typeName[k..], "[]") {
      if k + 2 <= |typeName| { assert typeName[k..][0] == typeName[k]; }
    }
  }

  lemma StringArrayIsArray()
    ensures Contains("string[]", "[]")
  {
    assert StartsWith("string[]"[6..], "[]");
  }

  /** A scalar column (neither bool nor an array) yields a JSON string
      literal that decodes back to the cell's text, or to "0" for an empty
      cell of a non-string column. */
  lemma ScalarRoundTrip(text: string, typeName: string)
    requires typeName != "bool" && !Contains(typeName, "[]")
    ensures var j := Coerce(CellValue(Cell(text, None)), typeName);
      && |j| >= 2 && j[0] == '"' && j[|j| - 1] == '"'
      && JsonUnescape(j[1..|j| - 1]) == (if text == "" && typeName != "string" then "0" else text)
  {
    StringArrayIsArray();
    var v := EscapeChar(text, '\\');
    var d := Defaulted(v, typeName);
    var body := EscapeChar(d, '"');
    assert Coerce(v, typeName) == "\"" + body + "\"";
    assert ("\"" + body + "\"")[1..|body| + 1] == body;
    if text == "" && typeName != "string" {
      assert d == "0";
      assert EscapeChar("0", '\\') == "0";
      EscapedTextRoundTrip("0");
    } else {
      if text != "" { assert v[0] == (if text[0] == '\\' then '\\' else text[0]); }
      assert d == v;
      EscapedTextRoundTrip(text);
    }
  }

  /** Other array columns wrap the raw text in brackets, so an empty cell
      becomes [0]; an empty string[] cell becomes []. */
  lemma ArrayWrapping(value: string, typeName: string)
    requires Contains(typeName, "[]")
    ensures typeName != "string[]" ==> Coerce(value, typeName) == "[" + (if value == "" then "0" else value) + "]"
    ensures Coerce("", "string[]") == "[]"
  {
    StringArrayIsArray();
    assert "string[]" != "bool";
    assert Parse("") == [];
    assert Join(JsonStrings([]), ",") == "";
    NoBrackets("bool");
    NoBrackets("string");
  }

  lemma StringArrayCoercion(value: string)
    ensures Coerce(value, "string[]") == "[" + Join(JsonStrings(Parse(value)), ",") + "]"
  {
    StringArrayIsArray();
    assert "string[]" != "bool";
  }

  /** A string[] cell holding trimmed plain items joined by commas yields a
      JSON array of exactly those items as string literals. */
  lemma StringArrayOfItems(parts: seq<string>)
    requires |parts| > 0 && parts[|parts| - 1] != ""
    requires AllPlain(parts)
    requires forall k :: 0 <= k < |parts| ==> IsTrimmed(parts[k])
    ensures Coerce(Join(parts, ","), "string[]") == "[" + Join(QuoteAll(parts), ",") + "]"
  {
    StringArrayCoercion(Join(parts, ","));
    JoinTrimmedRoundTrip(parts);
    PlainItemsQuoted(parts);
  }

  lemma PlainItemsQuoted(parts: seq<string>)
    requires AllPlain(parts)
    ensures JsonStrings(parts) == QuoteAll(parts)
  {
    forall k | 0 <= k < |parts| ensures JsonStrings(parts)[k] == QuoteAll(parts)[k] {
      assert Plain(parts[k]);
      EscapeCharAbsent(parts[k], '"');
    }
  }

  /** The fields of the first `n` columns of a row that is `width` columns
      wide, each present cell rendered by `field`: a missing cell adds
      nothing, a present one adds its field and a comma unless it is in the
      last column. */
  function Fields(row: Row, props: seq<Property>, n: nat, width: nat, field: (Property, Cell) -> string): string
    requires n <= |row| && n <= |props|
    decreases n
  {
    if n == 0 then ""
    else
      Fields(row, props, n - 1, width, field)
      + match row[n - 1]
        case None => ""
        case Some(c) => field(props[n - 1], c) + (if n - 1 < width - 1 then "," else "")
  }

  /** Math.Min(row.LastCellNum, Properties.Count) */
  function Width(row: Row, props: seq<Property>): (w: nat)
    ensures w <= |row| && w <= |props|
    ensures w == |row| || w == |props|
  {
    if |row| < |props| then |row| else |props|
  }

  /** The object text of a row, each present cell rendered by `field`. */
  function ObjectText(row: Row, props: seq<Property>, field: (Property, Cell) -> string): string {
    var w := Width(row, props);
    "{" + Fields(row, props, w, w, field) + "}"
  }

  /** The JSON object text of a data row. */
  function RowText(row: Row, props: seq<Property>): string {
    ObjectText(row, props, FieldText)
  }

  /** Some present cell among the columns the cell loop visits throws
      when it is read. */
  predicate RowThrows(row: Row, props: seq<Property>, throws: Cell -> bool) {
    exists j :: 0 <= j < Width(row, props) && row[j].Some? && throws(row[j].value)
  }

  /** The cell loop of GenerateConfigJson: one field per present cell
      within the narrower of the row and the header, separated by commas;
      `field` renders one cell (FieldText, whose value part CoerceCell
      computes) and `throws` tells the cells whose reading throws (Throws),
      which ends the loop with no text. */
  method BuildObject(row: Row, props: seq<Property>, field: (Property, Cell) -> string, throws: Cell -> bool)
    returns (text: Option<string>)
    ensures text.None? <==> RowThrows(row, props, throws)
    ensures text.Some? ==> text.value == ObjectText(row, props, field)
  {
    var maxColumns := Width(row, props);
    var sb := "{";
    assert "{" + Fields(row, props, 0, maxColumns, field) == "{";
    for j := 0 to maxColumns
      invariant sb == "{" + Fields(row, props, j, maxColumns, field)
      invariant forall k :: 0 <= k < j && row[k].Some? ==> !throws(row[k].value)
    {
      ghost var before := sb;
      var cell := row[j];
      if cell.None? {
        NextField(before, row, props, j, maxColumns, field, "");
        continue;
      }
      if throws(cell.value) {
        return None;
      }
      var rendered := field(props[j], cell.value);
      sb := sb + rendered;
      if j < maxColumns - 1 {
        sb := sb + ",";
      } else {
        assert sb + "" == sb;
      }
      NextField(before, row, props, j, maxColumns, field, rendered);
    }
    return Some(sb + "}");
  }

  /** One column's step of the cell loop. */
  lemma NextField(text: string, row: Row, props: seq<Property>, j: nat, width: nat,
                  field: (Property, Cell) -> string, rendered: string)
    requires j < |row| && j < |props|
    requires text == "{" + Fields(row, props, j, width, field)
    requires row[j].Some? ==> rendered == field(props[j], row[j].value)
    ensures row[j].None? ==> text == "{" + Fields(row, props, j + 1, width, field)
    ensures row[j].Some? ==>
      text + rendered + (if j < width - 1 then "," else "") == "{" + Fields(row, props, j + 1, width, field)
  {
    if row[j].None? {
      assert Fields(row, props, j, width, field) + "" == Fields(row, props, j, width, field);
    }
  }

  /** The rendered fields of the first `n` columns, all present. */
  function PresentFields(row: Row, props: seq<Property>, n: nat, field: (Property, Cell) -> string): (r: seq<string>)
    requires n <= |row| && n <= |props|
    requires forall j :: 0 <= j < n ==> row[j].Some?
    ensures |r| == n
    ensures forall j :: 0 <= j < n ==> r[j] == field(props[j], row[j].value)
  {
    seq(n, j requires 0 <= j < n => field(props[j], row[j].value))
  }

  lemma {:induction false} FieldsAllPresent(row: Row, props: seq<Property>, n: nat, width: nat,
                                            field: (Property, Cell) -> string)
    requires 0 < n <= width && n <= |row| && n <= |props|
    requires forall j :: 0 <= j < n ==> row[j].Some?
    ensures Fields(row, props, n, width, field)
         == Join(PresentFields(row, props, n, field), ",") + (if n < width then "," else "")
    decreases n
  {
    var f := PresentFields(row, props, n, field);
    var last := field(props[n - 1], row[n - 1].value);
    if n == 1 {
      assert f == [last];
      assert Fields(row, props, 0, width, field) == "";
    } else {
      FieldsAllPresent(row, props, n - 1, width, field);
      var g := PresentFields(row, props, n - 1, field);
      assert f == g + [last];
      JoinSnoc(g, ",", last);
    }
  }

  /** When every cell is present the object is the comma-separated list
      of fields, one per column, in column order. */
  lemma ObjectAllPresent(row: Row, props: seq<Property>, field: (Property, Cell) -> string)
    requires forall j :: 0 <= j < Width(row, props) ==> row[j].Some?
    ensures ObjectText(row, props, field) == "{" + Join(PresentFields(row, props, Width(row, props), field), ",") + "}"
  {
    var w := Width(row, props);
    if w > 0 {
      FieldsAllPresent(row, props, w, w, field);
    }
  }

  /** A missing cell in the last column after a present one leaves a comma
      before the closing brace. */
  lemma TrailingComma(row: Row, props: seq<Property>, field: (Property, Cell) -> string)
    requires Width(row, props) >= 2
    requires row[Width(row, props) - 1].None? && row[Width(row, props) - 2].Some?
    ensures var t := ObjectText(row, props, field); |t| >= 2 && t[|t| - 2..] == ",}"
  {
    var w := Width(row, props);
    var before := Fields(row, props, w - 2, w, field) + field(props[w - 2], row[w - 2].value);
    assert Fields(row, props, w, w, field) == before + ",";
    assert ObjectText(row, props, field) == "{" + before + "," + "}";
  }

  /** The dictionary entry of one data row, if the row is kept: it needs a
      non-empty id cell, its object text must deserialise to a record, and
      the record's own id must be non-empty.  The key is the id cell's
      text. */
  function RowEntry<R>(row: Row, rowText: Row -> string, deserialize: string -> Option<R>, idOf: R -> string)
    : (e: Option<(string, R)>)
    ensures e.Some? ==> |row| > 0 && row[0].Some? && e.value.0 == row[0].value.text && e.value.0 != ""
  {
    if |row| == 0 || row[0].None? then None
    else
      var id := row[0].value.text;
      if id == "" then None
      else
        match deserialize(rowText(row))
        case None => None
        case Some(obj) => if idOf(obj) == "" then None else Some((id, obj))
  }

  /** The entries of the rows from `i` up to the first missing row. */
  function Entries<R>(rows: seq<Option<Row>>, i: nat, rowText: Row -> string,
                      deserialize: string -> Option<R>, idOf: R -> string): seq<(string, R)>
    decreases |rows| - i
  {
    if i >= |rows| || rows[i].None? then []
    else
      match RowEntry(rows[i].value, rowText, deserialize, idOf)
      case None => Entries(rows, i + 1, rowText, deserialize, idOf)
      case Some(e) => [e] + Entries(rows, i + 1, rowText, deserialize, idOf)
  }

  /** The dictionary built from the rows: data starts at row 3. */
  function Collected<R>(rows: seq<Option<Row>>, rowText: Row -> string,
                        deserialize: string -> Option<R>, idOf: R -> string): map<string, R>
  {
    Assign(map[], Entries(rows, 3, rowText, deserialize, idOf))
  }

  function RowTexts(props: seq<Property>): Row -> string {
    row => RowText(row, props)
  }

  /** The dictionary GenerateConfigJson serialises for a sheet. */
  function Export<R>(sheet: Sheet, props: seq<Property>, deserialize: string -> Option<R>, idOf: R -> string)
    : map<string, R>
  {
    Collected(sheet.rows, RowTexts(props), deserialize, idOf)
  }

  /** Whether the row loop, from row `i` up to the first missing row,
      reaches a row with a non-empty id whose cell loop throws. */
  predicate Aborts(rows: seq<Option<Row>>, i: nat, rowThrows: Row -> bool)
    decreases |rows| - i
  {
    if i >= |rows| || rows[i].None? then false
    else
      var row := rows[i].value;
      (|row| > 0 && row[0].Some? && row[0].value.text != "" && rowThrows(row))
      || Aborts(rows, i + 1, rowThrows)
  }

  function RowThrowing(props: seq<Property>): Row -> bool {
    row => RowThrows(row, props, Throws)
  }

  /** Whether exporting the sheet throws instead of writing a payload. */
  predicate ExportThrows(sheet: Sheet, props: seq<Property>) {
    Aborts(sheet.rows, 3, RowThrowing(props))
  }

  /** A row with a non-empty id that throws aborts the loop started at any
      earlier row when no row in between is missing. */
  lemma {:induction false} AbortsAt(rows: seq<Option<Row>>, m: nat, i: nat, rowThrows: Row -> bool)
    requires m <= i < |rows|
    requires forall k :: m <= k <= i ==> rows[k].Some?
    requires var row := rows[i].value; |row| > 0 && row[0].Some? && row[0].value.text != "" && rowThrows(row)
    ensures Aborts(rows, m, rowThrows)
    decreases i - m
  {
    if m < i {
      AbortsAt(rows, m + 1, i, rowThrows);
    }
  }

  /** Without a throwing row the loop never aborts. */
  lemma {:induction false} NeverAborts(rows: seq<Option<Row>>, i: nat, rowThrows: Row -> bool)
    requires forall k :: i <= k < |rows| && rows[k].Some? ==> !rowThrows(rows[k].value)
    ensures !Aborts(rows, i, rowThrows)
    decreases |rows| - i
  {
    if i < |rows| && rows[i].Some? {
      NeverAborts(rows, i + 1, rowThrows);
    }
  }

  /** A Boolean or error formula in a visited column of a kept data row
      reached before any missing row makes the whole export throw. */
  lemma ThrowingCellAborts(sheet: Sheet, props: seq<Property>, i: nat, j: nat)
    requires 3 <= i < |sheet.rows|
    requires forall k :: 3 <= k <= i ==> sheet.rows[k].Some?
    requires var row := sheet.rows[i].value;
      && |row| > 0 && row[0].Some? && row[0].value.text != ""
      && j < Width(row, props) && row[j].Some? && Throws(row[j].value)
    ensures ExportThrows(sheet, props)
  {
    var row := sheet.rows[i].value;
    assert RowThrowing(props)(row);
    AbortsAt(sheet.rows, 3, i, RowThrowing(props));
  }

  /** A sheet with no Boolean or error formula result exports. */
  lemma NoThrowingCellExports(sheet: Sheet, props: seq<Property>)
    requires forall k, j ::
      0 <= k < |sheet.rows| && sheet.rows[k].Some? && 0 <= j < |sheet.rows[k].value| && sheet.rows[k].value[j].Some?
      ==> !Throws(sheet.rows[k].value[j].value)
    ensures !ExportThrows(sheet, props)
  {
    NeverAborts(sheet.rows, 3, RowThrowing(props));
  }

  /** The row loop of GenerateConfigJson; `rowText` is the cell loop and
      `rowThrows` tells the rows whose cell loop throws, which ends the
      export with no dictionary. */
  method CollectRows<R>(rows: seq<Option<Row>>, rowText: Row -> string, rowThrows: Row -> bool,
                        deserialize: string -> Option<R>, idOf: R -> string)
    returns (rawData: Option<map<string, R>>)
    ensures rawData.None? <==> Aborts(rows, 3, rowThrows)
    ensures rawData.Some? ==> rawData.value == Collected(rows, rowText, deserialize, idOf)
  {
    var rawDataDict := map[];
    var i := 3;
    while i < |rows|
      invariant 3 <= i
      invariant Aborts(rows, 3, rowThrows) == Aborts(rows, i, rowThrows)
      invariant Collected(rows, rowText, deserialize, idOf)
             == Assign(rawDataDict, Entries(rows, i, rowText, deserialize, idOf))
      decreases |rows| - i
    {
      var row := rows[i];
      if row.None? {
        break;
      }
      var cells := row.value;
      if |cells| == 0 || cells[0].None? {
        i := i + 1;
        continue;
      }
      var id := cells[0].value.text;
      if id == "" {
        i := i + 1;
        continue;
      }
      if rowThrows(cells) {
        return None;
      }
      var configObj := deserialize(rowText(cells));
      if configObj.None? || idOf(configObj.value) == "" {
        i := i + 1;
        continue;
      }
      rawDataDict := rawDataDict[id := configObj.value];
      i := i + 1;
    }
    return Some(rawDataDict);
  }


  lemma {:induction false} EntriesUpTo<R>(rows: seq<Option<Row>>, k: nat, i: nat, rowText: Row -> string,
                                          deserialize: string -> Option<R>, idOf: R -> string)
    requires i <= k < |rows| && rows[k].None?
    ensures Entries(rows, i, rowText, deserialize, idOf) == Entries(rows[..k], i, rowText, deserialize, idOf)
    decreases k - i
  {
    if i < k {
      assert rows[..k][i] == rows[i];
      EntriesUpTo(rows, k, i + 1, rowText, deserialize, idOf);
    }
  }

  /** Rows below the first missing data row are never read. */
  lemma RowsAfterGapIgnored<R>(rows: seq<Option<Row>>, k: nat, rowText: Row -> string,
                               deserialize: string -> Option<R>, idOf: R -> string)
    requires 3 <= k < |rows| && rows[k].None?
    ensures Collected(rows, rowText, deserialize, idOf) == Collected(rows[..k], rowText, deserialize, idOf)
  {
    EntriesUpTo(rows, k, 3, rowText, deserialize, idOf);
  }

  lemma {:induction false} EntriesSnoc<R>(rows: seq<Option<Row>>, i: nat, row: Row, rowText: Row -> string,
                                          deserialize: string -> Option<R>, idOf: R -> string)
    requires i <= |rows|
    requires forall j :: i <= j < |rows| ==> rows[j].Some?
    ensures Entries(rows + [Some(row)], i, rowText, deserialize, idOf)
         == Entries(rows, i, rowText, deserialize, idOf)
            + match RowEntry(row, rowText, deserialize, idOf) case None => [] case Some(e) => [e]
    decreases |rows| - i
  {
    var more := rows + [Some(row)];
    if i < |rows| {
      assert more[i] == rows[i];
      EntriesSnoc(rows, i + 1, row, rowText, deserialize, idOf);
      var tail := Entries(rows, i + 1, rowText, deserialize, idOf);
      var last: seq<(string, R)> := match RowEntry(row, rowText, deserialize, idOf) case None => [] case Some(e) => [e];
      match RowEntry(rows[i].value, rowText, deserialize, idOf)
      case None =>
      case Some(e) => assert [e] + (tail + last) == ([e] + tail) + last;
    } else {
      assert more[i] == Some(row);
      assert i + 1 >= |more|;
    }
  }

  /** A row added below a gap-free sheet: if it is kept, its id now maps to
      its record whatever earlier rows held (last wins) and every other id
      keeps its record; if it is skipped the dictionary is unchanged. */
  lemma AppendRowLastWins<R>(rows: seq<Option<Row>>, row: Row, rowText: Row -> string,
                             deserialize: string -> Option<R>, idOf: R -> string)
    requires |rows| >= 3
    requires forall j :: 3 <= j < |rows| ==> rows[j].Some?
    ensures var before := Collected(rows, rowText, deserialize, idOf);
      var after := Collected(rows + [Some(row)], rowText, deserialize, idOf);
      match RowEntry(row, rowText, deserialize, idOf)
      case None => after == before
      case Some(e) => after == before[e.0 := e.1]
  {
    EntriesSnoc(rows, 3, row, rowText, deserialize, idOf);
    var es := Entries(rows, 3, rowText, deserialize, idOf);
    match RowEntry(row, rowText, deserialize, idOf)
    case None => assert es + [] == es;
    case Some(e) => AssignSnoc(map[], es, e);
  }
}
