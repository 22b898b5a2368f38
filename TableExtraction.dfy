/**
 * The table extractor and the section namer of the validation base: how
 * tables rendered in the page become named DataTables. Two table families
 * exist: detail tables, whose columns are named by position and whose
 * names come from the section headers, and related lists, whose columns
 * are their header cells' texts and whose names come from the title at the
 * same position.
 */
module TableExtraction {
  import opened Web
  import opened DataSets
  import Text
  import WebElementExtensions
  import WebDriverExtensions

  /** How a cell is read. */
  datatype RowTypeLoad = ElementText | InnerHtml | HtmlInnerText

  /** The two table families. */
  datatype Family = Detail | RelatedList

  const DETAIL_TABLES := XPath("//table[@class = 'detailList']")
  const DETAIL_TABLES_HEADERS := XPath("//div[@class = 'pbSubheader brandTertiaryBgr tertiaryPalette']//h3")
  const RELATED_LIST_HEADER_TITLES := XPath("//*[contains(@class, 'bRelatedList')]/descendant::div[contains(@class, 'pbHeader')]/descendant::td[contains(@class, 'pbTitle')]//h3")
  const RELATED_LIST_BODY_TABLES := XPath("//*[contains(@class, 'bRelatedList')]/descendant::div[contains(@class, 'pbBody')]/descendant::table")

  const ROWS_PART := "tbody/tr"
  const CELLS_PART := "td"
  const RELATED_LIST_COLUMNS_PART := "descendant::tr[contains(@class, 'headerRow')]//th[not(contains(@class, 'actionColumn'))]"
  const RELATED_LIST_ROWS_PART := "descendant::tr[contains(@class, 'dataRow')]"
  const RELATED_LIST_ROW_DATA_PART := "child::*[not(contains(@class, 'actionColumn'))]"

  const MAIN_TABLE := "MainTable"

  // ---------------------------------------------------------------------
  // Section namer

  /**
   * A section header's text as a table name: trimmed, then without spaces.
   * The name keeps every character of the trimmed text but the spaces, each
   * as often, is empty exactly for a blank header, and is the header's text
   * itself when that holds no white space.
   */
  function SectionName(text: string): (name: string)
    ensures ' ' !in name
    ensures multiset(name) == multiset(Text.Trim(text))[' ' := 0]
    ensures |name| > 0 ==> !Text.IsWhiteSpace(name[0]) && !Text.IsWhiteSpace(name[|name| - 1])
    ensures |name| == 0 <==> forall i :: 0 <= i < |text| ==> Text.IsWhiteSpace(text[i])
    ensures (forall i :: 0 <= i < |text| ==> !Text.IsWhiteSpace(text[i])) ==> name == text
  {
    Text.TrimThenRemoveSpaces(text);
    Text.RemoveSpacesCounts(Text.Trim(text));
    Text.RemoveSpaces(Text.Trim(text))
  }

  function HeaderNames(headers: seq<Element>): (names: seq<string>)
    ensures |names| == |headers|
    ensures forall i :: 0 <= i < |headers| ==> names[i] == SectionName(headers[i].text)
  {
    seq(|headers|, i requires 0 <= i < |headers| => SectionName(headers[i].text))
  }

  /** "Table1" .. "Table<count>". */
  function GenericNames(count: nat): (names: seq<string>)
    ensures |names| == count
  {
    seq(count, i requires 0 <= i => "Table" + Text.NatToString(i + 1))
  }

  /**
   * `GetTableNames(numberOfDetailTables)`: one name per detail table, by the
   * first policy that applies: as many headers as tables (header names), one
   * header fewer (a leading "MainTable", then the header names), otherwise
   * "Table1".."TableD". Absent headers count as zero, but the first two
   * policies then hand the missing collection to `ToList`, which rejects
   * a null source.
   */
  function GetTableNames(numberOfDetailTables: nat, headers: Option<seq<Element>>): (r: Result<seq<string>>)
    ensures r.Err? <==> headers.None? && numberOfDetailTables <= 1
    ensures r.Err? ==> r.fault == ArgumentNull
    ensures r.Ok? ==> |r.value| == numberOfDetailTables
  {
    var numberOfHeaders := if headers.Some? then |headers.value| else 0;
    if numberOfHeaders == numberOfDetailTables then
      if headers.None? then Err(ArgumentNull) else Ok(HeaderNames(headers.value))
    else if numberOfHeaders == numberOfDetailTables - 1 then
      if headers.None? then Err(ArgumentNull) else Ok([MAIN_TABLE] + HeaderNames(headers.value))
    else
      Ok(GenericNames(numberOfDetailTables))
  }

  /** As many headers as tables: table i is named after header i. */
  lemma TableNamesOneToOne(numberOfDetailTables: nat, headers: seq<Element>)
    requires |headers| == numberOfDetailTables
    ensures GetTableNames(numberOfDetailTables, Some(headers)).Ok?
    ensures forall i :: 0 <= i < numberOfDetailTables ==>
      GetTableNames(numberOfDetailTables, Some(headers)).value[i] == SectionName(headers[i].text)
  {
  }

  /** One header fewer than tables: "MainTable" first, then the header names in order. */
  lemma TableNamesWithMainTable(numberOfDetailTables: nat, headers: seq<Element>)
    requires |headers| + 1 == numberOfDetailTables
    ensures GetTableNames(numberOfDetailTables, Some(headers)).Ok?
    ensures GetTableNames(numberOfDetailTables, Some(headers)).value[0] == MAIN_TABLE
    ensures GetTableNames(numberOfDetailTables, Some(headers)).value[1..] == HeaderNames(headers)
  {
    var names := [MAIN_TABLE] + HeaderNames(headers);
    assert GetTableNames(numberOfDetailTables, Some(headers)) == Ok(names);
    assert names[1..] == HeaderNames(headers);
  }

  /** Any other header count: "Table1".."TableD", all different. */
  lemma TableNamesGeneric(numberOfDetailTables: nat, headers: Option<seq<Element>>)
    requires var h := if headers.Some? then |headers.value| else 0;
      h != numberOfDetailTables && h != numberOfDetailTables - 1
    ensures GetTableNames(numberOfDetailTables, headers).Ok?
    ensures forall i :: 0 <= i < numberOfDetailTables ==>
      GetTableNames(numberOfDetailTables, headers).value[i] == "Table" + Text.NatToString(i + 1)
    ensures forall i, j :: 0 <= i < j < numberOfDetailTables ==>
      GetTableNames(numberOfDetailTables, headers).value[i] != GetTableNames(numberOfDetailTables, headers).value[j]
  {
    var names := GenericNames(numberOfDetailTables);
    forall i, j | 0 <= i < j < numberOfDetailTables ensures names[i] != names[j] {
      Text.NatToStringInjective(i + 1, j + 1);
      Text.PrefixedDiffer("Table", Text.NatToString(i + 1), Text.NatToString(j + 1));
    }
  }

  // ---------------------------------------------------------------------
  // Columns and rows

  /** "col1" .. "col<count>". */
  function PositionalColumns(count: nat): (columns: seq<string>)
    ensures |columns| == count
    ensures forall i :: 0 <= i < count ==> columns[i] == "col" + Text.NatToString(i + 1)
  {
    seq(count, i requires 0 <= i => "col" + Text.NatToString(i + 1))
  }

  /** Positional column names never clash. */
  lemma PositionalColumnsDistinct(count: nat)
    ensures forall i, j :: 0 <= i < j < count ==> PositionalColumns(count)[i] != PositionalColumns(count)[j]
  {
    forall i, j | 0 <= i < j < count ensures PositionalColumns(count)[i] != PositionalColumns(count)[j] {
      Text.NatToStringInjective(i + 1, j + 1);
      Text.PrefixedDiffer("col", Text.NatToString(i + 1), Text.NatToString(j + 1));
    }
  }

  /** `GetRows(table)`: the rows directly under the table's body, in order; none when the path finds nothing. */
  function GetRows(table: Element): (rows: seq<Element>)
    ensures ROWS_PART in table.children ==> rows == table.children[ROWS_PART]
    ensures ROWS_PART !in table.children ==> rows == []
  {
    Children(table, ROWS_PART)
  }

  /** `GetRelatedListRows(table)`: the table's data rows, in order; none when the path finds nothing. */
  function GetRelatedListRows(table: Element): (rows: seq<Element>)
    ensures RELATED_LIST_ROWS_PART in table.children ==> rows == table.children[RELATED_LIST_ROWS_PART]
    ensures RELATED_LIST_ROWS_PART !in table.children ==> rows == []
  {
    Children(table, RELATED_LIST_ROWS_PART)
  }

  /**
   * `GetColumns(rows)`: positional names, one per cell of the first row;
   * null when there is no row or the first row has no cell.
   */
  function GetColumns(rows: seq<Element>): (r: Option<seq<string>>)
    ensures r.None? <==> |rows| == 0 || |Children(rows[0], CELLS_PART)| == 0
    ensures r.Some? ==> |r.value| == |Children(rows[0], CELLS_PART)| > 0
    ensures r.Some? ==> forall i :: 0 <= i < |r.value| ==> r.value[i] == "col" + Text.NatToString(i + 1)
  {
    if |rows| == 0 then None
    else
      var tds := Children(rows[0], CELLS_PART);
      if |tds| == 0 then None else Some(PositionalColumns(|tds|))
  }

  /** `GetRelatedListTableColumns(table)`: the header cells' texts, verbatim. */
  function GetRelatedListTableColumns(table: Element): (columns: seq<string>)
    ensures |columns| == |Children(table, RELATED_LIST_COLUMNS_PART)|
    ensures forall i :: 0 <= i < |columns| ==> columns[i] == Children(table, RELATED_LIST_COLUMNS_PART)[i].text
  {
    var headerCells := Children(table, RELATED_LIST_COLUMNS_PART);
    seq(|headerCells|, i requires 0 <= i < |headerCells| => headerCells[i].text)
  }

  /**
   * One cell's value: by the selected-option-else-text convention for
   * element text, the raw inner markup for InnerHtml, "" otherwise.
   */
  function CellValue(cell: Element, load: RowTypeLoad): (r: Cell)
    ensures load == ElementText ==> r == WebElementExtensions.EffectiveValue(cell)
    ensures load == InnerHtml ==> r == Some(cell.innerHtml)
    ensures load == HtmlInnerText ==> r == Some("")
  {
    match load
    case ElementText =>
      if WebElementExtensions.IsSelectable(Some(cell)) then WebElementExtensions.GetSelectedOptionText(Some(cell))
      else Some(cell.text)
    case InnerHtml => GetAttribute(cell, "innerHTML")
    case HtmlInnerText => Some("")
  }

  function ReadCells(cells: seq<Element>, load: RowTypeLoad): (items: Row)
    ensures |items| == |cells|
    ensures forall i :: 0 <= i < |cells| ==> items[i] == CellValue(cells[i], load)
  {
    seq(|cells|, i requires 0 <= i < |cells| => CellValue(cells[i], load))
  }

  /** `GetRowData(row, load)`: one value per <td> cell of the row, in order, each read by the load rule. */
  function GetRowData(row: Element, load: RowTypeLoad): (items: Row)
    ensures |items| == |Children(row, CELLS_PART)|
    ensures forall i :: 0 <= i < |items| ==> items[i] == CellValue(Children(row, CELLS_PART)[i], load)
  {
    ReadCells(Children(row, CELLS_PART), load)
  }

  /** `GetRelatedListRowData(row, load)`: one value per non-action cell of the row, in order, each read by the load rule. */
  function GetRelatedListRowData(row: Element, load: RowTypeLoad): (items: Row)
    ensures |items| == |Children(row, RELATED_LIST_ROW_DATA_PART)|
    ensures forall i :: 0 <= i < |items| ==> items[i] == CellValue(Children(row, RELATED_LIST_ROW_DATA_PART)[i], load)
  {
    ReadCells(Children(row, RELATED_LIST_ROW_DATA_PART), load)
  }

  /** A row longer than the schema keeps its first `count` cells; a shorter one is kept whole, not padded. */
  function TruncateRow(items: Row, count: nat): (r: Row)
    ensures r <= items
    ensures |r| <= count
    ensures |r| == if |items| > count then count else |items|
  {
    if |items| > count then items[..count] else items
  }

  /** Stored rows are the data rows with every overlong one cut to the column count. */
  function TableOf(name: string, columns: seq<string>, rowData: seq<Row>): (t: Option<DataTable>)
    ensures t.None? <==> |columns| == 0
    ensures t.Some? ==> t.value.name == name && t.value.columns == columns && |t.value.rows| == |rowData|
    ensures t.Some? ==> forall i :: 0 <= i < |rowData| ==>
      t.value.rows[i] <= rowData[i] && |t.value.rows[i]| <= |columns| &&
      (|rowData[i]| <= |columns| ==> t.value.rows[i] == rowData[i])
  {
    if |columns| == 0 then None
    else Some(DataTable(name, columns, seq(|rowData|, i requires 0 <= i < |rowData| => TruncateRow(rowData[i], |columns|))))
  }

  /** What `CreateDataTable(table, name, load)` builds: null when no column could be inferred. */
  function DetailTable(table: Element, name: string, load: RowTypeLoad): (t: Option<DataTable>)
    ensures t.None? <==> GetColumns(GetRows(table)).None?
  {
    var rows := GetRows(table);
    match GetColumns(rows)
    case None => None
    case Some(columns) => TableOf(name, columns, seq(|rows|, i requires 0 <= i < |rows| => GetRowData(rows[i], load)))
  }

  /** What `CreateRelatedListDataTable(table, name, load)` builds: null when there is no header cell. */
  function RelatedListTable(table: Element, name: string, load: RowTypeLoad): (t: Option<DataTable>)
    ensures t.None? <==> |GetRelatedListTableColumns(table)| == 0
  {
    var rows := GetRelatedListRows(table);
    TableOf(name, GetRelatedListTableColumns(table), seq(|rows|, i requires 0 <= i < |rows| => GetRelatedListRowData(rows[i], load)))
  }

  function TableFor(family: Family, table: Element, name: string, load: RowTypeLoad): Option<DataTable> {
    match family
    case Detail => DetailTable(table, name, load)
    case RelatedList => RelatedListTable(table, name, load)
  }

  /** Adds the rows of a new table one by one, cutting each to `columnCount` cells. */
  method LoadRows(rowData: seq<Row>, columnCount: nat) returns (loaded: seq<Row>)
    ensures |loaded| == |rowData|
    ensures forall i :: 0 <= i < |rowData| ==> loaded[i] == TruncateRow(rowData[i], columnCount)
  {
    loaded := [];
    var i := 0;
    while i < |rowData|
      invariant 0 <= i <= |rowData|
      invariant |loaded| == i
      invariant forall k :: 0 <= k < i ==> loaded[k] == TruncateRow(rowData[k], columnCount)
    {
      var itemArray := rowData[i];
      if |itemArray| > columnCount {
        loaded := loaded + [itemArray[..columnCount]];
      } else {
        loaded := loaded + [itemArray];
      }
      i := i + 1;
    }
  }

  /** `CreateDataTable(table, tableName, rowTypeLoad)`. */
  method CreateDataTable(table: Element, tableName: string, load: RowTypeLoad) returns (dt: Option<DataTable>)
    ensures dt == DetailTable(table, tableName, load)
  {
    var rows := GetRows(table);
    var columns := GetColumns(rows);
    if columns.None? || |columns.value| == 0 {
      return None;
    }
    var rowData := seq(|rows|, i requires 0 <= i < |rows| => GetRowData(rows[i], load));
    var loaded := LoadRows(rowData, |columns.value|);
    assert loaded == seq(|rowData|, i requires 0 <= i < |rowData| => TruncateRow(rowData[i], |columns.value|));
    dt := Some(DataTable(tableName, columns.value, loaded));
  }

  /** `CreateRelatedListDataTable(table, tableName, rowTypeLoad)`. */
  method CreateRelatedListDataTable(table: Element, tableName: string, load: RowTypeLoad) returns (dt: Option<DataTable>)
    ensures dt == RelatedListTable(table, tableName, load)
  {
    var rows := GetRelatedListRows(table);
    var columns := GetRelatedListTableColumns(table);
    if |columns| == 0 {
      return None;
    }
    var rowData := seq(|rows|, i requires 0 <= i < |rows| => GetRelatedListRowData(rows[i], load));
    var loaded := LoadRows(rowData, |columns|);
    assert loaded == seq(|rowData|, i requires 0 <= i < |rowData| => TruncateRow(rowData[i], |columns|));
    dt := Some(DataTable(tableName, columns, loaded));
  }

  method CreateTable(family: Family, table: Element, tableName: string, load: RowTypeLoad) returns (dt: Option<DataTable>)
    ensures dt == TableFor(family, table, tableName, load)
  {
    match family
    case Detail => dt := CreateDataTable(table, tableName, load);
    case RelatedList => dt := CreateRelatedListDataTable(table, tableName, load);
  }

  // ---------------------------------------------------------------------
  // Whole extractions

  /**
   * The tables kept from `tables`, in order, table i being built under
   * `names[i]`: the name index advances past a dropped table too.
   */
  function Collect(family: Family, tables: seq<Element>, names: seq<string>, load: RowTypeLoad): (ds: DataSet)
    requires |names| == |tables|
    ensures |ds| <= |tables|
    decreases |tables|
  {
    if |tables| == 0 then []
    else
      var n := |tables| - 1;
      Collect(family, tables[..n], names[..n], load) +
        match TableFor(family, tables[n], names[n], load)
        case Some(t) => [t]
        case None => []
  }

  /** Building one more table extends the collected set by that table, if it yields one. */
  lemma CollectOneMore(family: Family, tables: seq<Element>, names: seq<string>, load: RowTypeLoad, i: nat)
    requires i < |tables| && i < |names|
    ensures Collect(family, tables[..i + 1], names[..i + 1], load) ==
      Collect(family, tables[..i], names[..i], load) +
        match TableFor(family, tables[i], names[i], load)
        case Some(t) => [t]
        case None => []
  {
    assert tables[..i + 1][..i] == tables[..i];
    assert names[..i + 1][..i] == names[..i];
  }

  /** Every kept table is the one built from some table under the name at that table's own position. */
  lemma {:induction false} CollectFromPositions(family: Family, tables: seq<Element>, names: seq<string>, load: RowTypeLoad)
    requires |names| == |tables|
    ensures forall t :: t in Collect(family, tables, names, load) ==>
      exists i :: 0 <= i < |tables| && TableFor(family, tables[i], names[i], load) == Some(t)
  {
    if |tables| > 0 {
      var n := |tables| - 1;
      CollectFromPositions(family, tables[..n], names[..n], load);
      forall t | t in Collect(family, tables, names, load)
        ensures exists i :: 0 <= i < |tables| && TableFor(family, tables[i], names[i], load) == Some(t)
      {
        if t in Collect(family, tables[..n], names[..n], load) {
          var i :| 0 <= i < n && TableFor(family, tables[..n][i], names[..n][i], load) == Some(t);
          assert tables[..n][i] == tables[i] && names[..n][i] == names[i];
        } else {
          assert TableFor(family, tables[n], names[n], load) == Some(t);
        }
      }
    }
  }

  /** Every table that yields a DataTable is kept, under the name at its position. */
  lemma {:induction false} CollectKeepsEveryTable(family: Family, tables: seq<Element>, names: seq<string>, load: RowTypeLoad, i: nat)
    requires |names| == |tables| && i < |tables|
    requires TableFor(family, tables[i], names[i], load).Some?
    ensures TableFor(family, tables[i], names[i], load).value in Collect(family, tables, names, load)
    ensures TableFor(family, tables[i], names[i], load).value.name == names[i]
  {
    var n := |tables| - 1;
    if i < n {
      assert tables[..n][i] == tables[i] && names[..n][i] == names[i];
      CollectKeepsEveryTable(family, tables[..n], names[..n], load, i);
    }
  }

  /** The outcome of an extraction: the set built, and the fault that stopped it, if any. */
  datatype Extraction = Extraction(tables: DataSet, fault: Option<Fault>)

  /**
   * `GetDetailTables` on a fresh validator: the detail tables found (none if
   * the probe finds none), named by the section namer.
   */
  function DetailTablesOf(driver: Driver, load: RowTypeLoad): (r: Extraction)
    ensures !WebDriverExtensions.Present(Some(driver), Some(DETAIL_TABLES)) ==> r == Extraction([], None)
    ensures r.fault.Some? <==>
      WebDriverExtensions.Present(Some(driver), Some(DETAIL_TABLES)) &&
      !WebDriverExtensions.Present(Some(driver), Some(DETAIL_TABLES_HEADERS)) &&
      |driver.Matches(DETAIL_TABLES)| == 1
    ensures r.fault.Some? ==> r == Extraction([], Some(ArgumentNull))
    ensures |r.tables| <= |driver.Matches(DETAIL_TABLES)|
  {
    var tables := WebDriverExtensions.TryFindElements(Some(driver), Some(DETAIL_TABLES), WebDriverExtensions.LOOKUP_TIMEOUT);
    if tables.None? then Extraction([], None)
    else
      var headers := WebDriverExtensions.TryFindElements(Some(driver), Some(DETAIL_TABLES_HEADERS), WebDriverExtensions.LOOKUP_TIMEOUT);
      match GetTableNames(|tables.value|, headers)
      case Err(f) => Extraction([], Some(f))
      case Ok(names) => Extraction(Collect(Detail, tables.value, names, load), None)
  }

  /** A related list's name: its title's text without spaces (not trimmed). */
  function RelatedListNames(titles: seq<Element>): (names: seq<string>)
    ensures |names| == |titles|
    ensures forall i :: 0 <= i < |titles| ==> names[i] == Text.RemoveSpaces(titles[i].text)
  {
    seq(|titles|, i requires 0 <= i < |titles| => Text.RemoveSpaces(titles[i].text))
  }

  /**
   * `GetRelatedLists` on a fresh validator. Both lookups may fault. Table i
   * takes title i's name; when there are fewer titles than tables, the
   * first table without a title stops the extraction with an index fault,
   * keeping the tables built before it.
   */
  function RelatedListsOf(driver: Driver, load: RowTypeLoad): (r: Extraction)
    ensures driver.probeFaults ==> r == Extraction([], Some(ProbeFault))
    ensures !driver.probeFaults ==>
      (r.fault.Some? <==> |driver.Matches(RELATED_LIST_BODY_TABLES)| > |driver.Matches(RELATED_LIST_HEADER_TITLES)|)
    ensures !driver.probeFaults && r.fault.Some? ==> r.fault == Some(ArgumentOutOfRange)
    ensures |r.tables| <= |driver.Matches(RELATED_LIST_BODY_TABLES)| && |r.tables| <= |driver.Matches(RELATED_LIST_HEADER_TITLES)|
  {
    match driver.FindElements(RELATED_LIST_BODY_TABLES)
    case Err(f) => Extraction([], Some(f))
    case Ok(tables) =>
      match driver.FindElements(RELATED_LIST_HEADER_TITLES)
      case Err(f) => Extraction([], Some(f))
      case Ok(titles) =>
        if |tables| <= |titles| then
          Extraction(Collect(RelatedList, tables, RelatedListNames(titles)[..|tables|], load), None)
        else
          Extraction(Collect(RelatedList, tables[..|titles|], RelatedListNames(titles), load), Some(ArgumentOutOfRange))
  }
}
