/** Row search over an extracted table (`FindByText`, `ContainsText`). */
module DataTableExtensions {
  import opened Web
  import opened DataSets
  import Text

  /**
   * Whether one cell matches: null and empty cells never do; otherwise,
   * with `indexOf` a cell containing the text matches, and in every case a
   * cell equal to it does.
   */
  predicate CellMatches(cell: Cell, textToFind: string, indexOf: bool) {
    cell.Some? && cell.value != "" &&
    ((indexOf && Text.Contains(cell.value, textToFind)) || cell.value == textToFind)
  }

  predicate RowMatches(row: Row, textToFind: string, indexOf: bool) {
    exists j :: 0 <= j < |row| && CellMatches(row[j], textToFind, indexOf)
  }

  /** With `indexOf` a match is a substring occurrence; without it, exact equality. */
  lemma CellMatchMeaning(cell: Cell, textToFind: string, indexOf: bool)
    ensures CellMatches(cell, textToFind, indexOf) <==>
      cell.Some? && cell.value != "" &&
      (if indexOf then Text.Contains(cell.value, textToFind) else cell.value == textToFind)
  {
    if cell.Some? && cell.value == textToFind {
      assert Text.OccursAt(cell.value, textToFind, 0);
    }
  }

  /**
   * `table.FindByText(textToFind, indexOf)`: the first row, in row order,
   * having a matching cell; null for a null or empty table and when no row
   * matches.
   */
  method FindByText(table: Option<DataTable>, textToFind: string, indexOf: bool) returns (found: Option<Row>)
    ensures found.None? <==>
      table.None? || forall i :: 0 <= i < |table.value.rows| ==> !RowMatches(table.value.rows[i], textToFind, indexOf)
    ensures found.Some? ==> (exists i :: 0 <= i < |table.value.rows| && found.value == table.value.rows[i] &&
                                RowMatches(table.value.rows[i], textToFind, indexOf) &&
                                forall k :: 0 <= k < i ==> !RowMatches(table.value.rows[k], textToFind, indexOf))
  {
    if table.None? || |table.value.rows| == 0 {
      return None;
    }
    var rows := table.value.rows;
    var i := 0;
    while i < |rows|
      invariant 0 <= i <= |rows|
      invariant forall k :: 0 <= k < i ==> !RowMatches(rows[k], textToFind, indexOf)
    {
      var data := rows[i];
      var j := 0;
      while j < |data|
        invariant 0 <= j <= |data|
        invariant forall m :: 0 <= m < j ==> !CellMatches(data[m], textToFind, indexOf)
      {
        var item := data[j];
        if item.Some? && item.value != "" {
          if indexOf && Text.Contains(item.value, textToFind) {
            return Some(data);
          } else if item.value == textToFind {
            return Some(data);
          }
        }
        j := j + 1;
      }
      i := i + 1;
    }
    return None;
  }

  /** `table.ContainsText(textToFind, indexOf)`: some row matches. */
  method ContainsText(table: Option<DataTable>, textToFind: string, indexOf: bool) returns (r: bool)
    ensures r <==> table.Some? && exists i :: 0 <= i < |table.value.rows| && RowMatches(table.value.rows[i], textToFind, indexOf)
  {
    var found := FindByText(table, textToFind, indexOf);
    r := found.Some?;
  }
}
