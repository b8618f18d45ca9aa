// createSBOGrid and its builders: the header row, one body row per datum
// and the record-count footer, as structured descriptors instead of markup.

module GridRender {
  import opened Text
  import opened Js
  import opened GridFormat

  /** A grid column. `visible` is the truthiness of column.visible (an
      absent flag hides the column); an absent width or dataType is "". */
  datatype GridColumn = GridColumn(id: string, title: string, width: string, dataType: string, visible: bool)

  /** A header cell: the '#' cell, or a column's cell carrying its id, width,
      data type and (when sorting is on) the sortable class, the sort icon
      and the handleGridSort click target. */
  datatype GridHeaderCell =
    | RowNumberHeader
    | ColumnHeader(columnId: string, title: string, width: string, dataType: string, sortable: bool)

  /** A body cell: the row-number cell, or a data cell with its data-value
      attribute, displayed text and alignment class. */
  datatype GridBodyCell =
    | RowNumberCell(numberText: string)
    | DataCell(columnId: string, dataValue: string, text: string, align: string)

  /** A body row: its data-row-index attribute, whether it has the alternate
      class, whether it has the selectable class and the handleGridRowClick
      target, and its cells. */
  datatype GridRow = GridRow(rowIndexAttr: string, alternate: bool, selectable: bool, cells: seq<GridBodyCell>)

  datatype GridOptions = GridOptions(
    uniqueId: string,
    columns: seq<GridColumn>,
    data: seq<map<string, JsValue>>,
    allowSorting: bool,
    allowSelection: bool,
    showRowNumbers: bool,
    alternateRowColor: bool,
    isDisabled: bool)

  datatype GridView = GridView(
    id: string,
    classes: set<string>,
    allowSorting: bool,
    allowSelection: bool,
    header: seq<GridHeaderCell>,
    rows: seq<GridRow>,
    footer: string)

  const RecordCountLabel := "Kayıt sayısı: "

  function WidthOrAuto(width: string): string
  {
    if width == "" then "auto" else width
  }

  function DataTypeOrString(dataType: string): string
  {
    if dataType == "" then "string" else dataType
  }

  /** The visible columns, in order. */
  function Visible(columns: seq<GridColumn>): seq<GridColumn>
  {
    if columns == [] then []
    else
      var last := columns[|columns| - 1];
      Visible(columns[..|columns| - 1]) + (if last.visible then [last] else [])
  }

  function HeaderFor(column: GridColumn, allowSorting: bool): GridHeaderCell
  {
    ColumnHeader(column.id, column.title, WidthOrAuto(column.width), DataTypeOrString(column.dataType), allowSorting)
  }

  /** The column cells of the header row, hidden columns skipped. */
  function ColumnHeaders(columns: seq<GridColumn>, allowSorting: bool): seq<GridHeaderCell>
  {
    if columns == [] then []
    else
      var last := columns[|columns| - 1];
      ColumnHeaders(columns[..|columns| - 1], allowSorting)
      + (if last.visible then [HeaderFor(last, allowSorting)] else [])
  }

  /** createGridHeaderRow, as a value. */
  function GridHeaderRow(columns: seq<GridColumn>, showRowNumbers: bool, allowSorting: bool): seq<GridHeaderCell>
  {
    (if showRowNumbers then [RowNumberHeader] else []) + ColumnHeaders(columns, allowSorting)
  }

  function DataCellFor(row: map<string, JsValue>, column: GridColumn, host: Host): GridBodyCell
  {
    DataCell(column.id, Interpolate(CellSource(row, column.id), host),
             CellText(row, column.id, column.dataType, host), GetGridCellAlignClass(column.dataType))
  }

  /** The data cells of one body row, hidden columns skipped. */
  function RowCells(row: map<string, JsValue>, columns: seq<GridColumn>, host: Host): seq<GridBodyCell>
  {
    if columns == [] then []
    else
      var last := columns[|columns| - 1];
      RowCells(row, columns[..|columns| - 1], host)
      + (if last.visible then [DataCellFor(row, last, host)] else [])
  }

  function RowNumberCells(index: nat, showRowNumbers: bool): seq<GridBodyCell>
  {
    if showRowNumbers then [RowNumberCell(NatToDecimal(index + 1))] else []
  }

  /** The body row for datum `row` at position `index`. */
  function GridRowFor(row: map<string, JsValue>, index: nat, columns: seq<GridColumn>, showRowNumbers: bool,
                      alternateRowColor: bool, allowSelection: bool, host: Host): GridRow
  {
    GridRow(NatToDecimal(index), alternateRowColor && index % 2 == 1, allowSelection,
            RowNumberCells(index, showRowNumbers) + RowCells(row, columns, host))
  }

  /** createGridDataRows, as a value: `data.map((row, index) => ...)`. */
  function GridDataRows(data: seq<map<string, JsValue>>, columns: seq<GridColumn>, showRowNumbers: bool,
                        alternateRowColor: bool, allowSelection: bool, host: Host): seq<GridRow>
  {
    seq(|data|, i requires 0 <= i < |data| =>
      GridRowFor(data[i], i, columns, showRowNumbers, alternateRowColor, allowSelection, host))
  }

  /** The header-row builder: an optional '#' cell, then one cell per
      visible column. */
  method CreateGridHeaderRow(columns: seq<GridColumn>, showRowNumbers: bool, allowSorting: bool)
    returns (headerCells: seq<GridHeaderCell>)
    ensures headerCells == GridHeaderRow(columns, showRowNumbers, allowSorting)
  {
    headerCells := [];
    if showRowNumbers {
      headerCells := headerCells + [RowNumberHeader];
    }
    var prefix := headerCells;
    var i := 0;
    while i < |columns|
      invariant 0 <= i <= |columns|
      invariant headerCells == prefix + ColumnHeaders(columns[..i], allowSorting)
    {
      var column := columns[i];
      assert columns[..i + 1][..i] == columns[..i];
      if column.visible {
        var width := if column.width == "" then "auto" else column.width;
        var dataType := if column.dataType == "" then "string" else column.dataType;
        headerCells := headerCells + [ColumnHeader(column.id, column.title, width, dataType, allowSorting)];
      }
      i := i + 1;
    }
    assert columns[..i] == columns;
  }

  /** The cells of one body row: an optional row-number cell, then one data
      cell per visible column. */
  method BuildGridRowCells(row: map<string, JsValue>, index: nat, columns: seq<GridColumn>, showRowNumbers: bool, host: Host)
    returns (cells: seq<GridBodyCell>)
    ensures cells == RowNumberCells(index, showRowNumbers) + RowCells(row, columns, host)
  {
    cells := [];
    if showRowNumbers {
      cells := cells + [RowNumberCell(NatToDecimal(index + 1))];
    }
    var prefix := cells;
    var i := 0;
    while i < |columns|
      invariant 0 <= i <= |columns|
      invariant cells == prefix + RowCells(row, columns[..i], host)
    {
      var column := columns[i];
      assert columns[..i + 1][..i] == columns[..i];
      if column.visible {
        var value := OrEmpty(Prop(row, column.id));
        var formattedValue := FormatGridCellValue(value, column.dataType, host);
        var alignClass := GetGridCellAlignClass(column.dataType);
        cells := cells + [DataCell(column.id, Interpolate(value, host), Interpolate(formattedValue, host), alignClass)];
      }
      i := i + 1;
    }
    assert columns[..i] == columns;
  }

  /** The body builder: one row per datum. */
  method CreateGridDataRows(data: seq<map<string, JsValue>>, columns: seq<GridColumn>, showRowNumbers: bool,
                            alternateRowColor: bool, allowSelection: bool, host: Host)
    returns (rows: seq<GridRow>)
    ensures rows == GridDataRows(data, columns, showRowNumbers, alternateRowColor, allowSelection, host)
  {
    rows := [];
    var index := 0;
    while index < |data|
      invariant 0 <= index <= |data| && |rows| == index
      invariant forall i :: 0 <= i < index ==>
        rows[i] == GridRowFor(data[i], i, columns, showRowNumbers, alternateRowColor, allowSelection, host)
    {
      var cells := BuildGridRowCells(data[index], index, columns, showRowNumbers, host);
      var alternate := alternateRowColor && index % 2 == 1;
      rows := rows + [GridRow(NatToDecimal(index), alternate, allowSelection, cells)];
      index := index + 1;
    }
  }

  /** createSBOGrid: header, body and the record-count footer. */
  method CreateSBOGrid(options: GridOptions, host: Host) returns (view: GridView)
    ensures view.id == options.uniqueId
    ensures view.classes == {"sbo-grid"} + (if options.isDisabled then {"sbo-grid--disabled"} else {})
    ensures view.allowSorting == options.allowSorting && view.allowSelection == options.allowSelection
    ensures view.header == GridHeaderRow(options.columns, options.showRowNumbers, options.allowSorting)
    ensures view.rows == GridDataRows(options.data, options.columns, options.showRowNumbers,
                                      options.alternateRowColor, options.allowSelection, host)
    ensures view.footer == RecordCountLabel + NatToDecimal(|options.data|)
  {
    var headerRow := CreateGridHeaderRow(options.columns, options.showRowNumbers, options.allowSorting);
    var dataRows := CreateGridDataRows(options.data, options.columns, options.showRowNumbers,
                                       options.alternateRowColor, options.allowSelection, host);
    var classes := if options.isDisabled then {"sbo-grid", "sbo-grid--disabled"} else {"sbo-grid"};
    view := GridView(options.uniqueId, classes, options.allowSorting, options.allowSelection,
                     headerRow, dataRows, RecordCountLabel + NatToDecimal(|options.data|));
  }

  /** The visible columns are exactly the columns whose flag is set. */
  lemma {:induction false} VisibleMembers(columns: seq<GridColumn>)
    ensures |Visible(columns)| <= |columns|
    ensures forall c :: c in Visible(columns) <==> c in columns && c.visible
  {
    if columns != [] {
      var init := columns[..|columns| - 1];
      VisibleMembers(init);
      assert columns == init + [columns[|columns| - 1]];
    }
  }

  /** Header cell k is the cell of the k-th visible column. */
  lemma {:induction false} ColumnHeadersAt(columns: seq<GridColumn>, allowSorting: bool)
    ensures |ColumnHeaders(columns, allowSorting)| == |Visible(columns)|
    ensures forall k :: 0 <= k < |Visible(columns)| ==>
      ColumnHeaders(columns, allowSorting)[k] == HeaderFor(Visible(columns)[k], allowSorting)
  {
    if columns != [] {
      ColumnHeadersAt(columns[..|columns| - 1], allowSorting);
    }
  }

  /** Data cell k of every row is the cell of the k-th visible column. */
  lemma {:induction false} RowCellsAt(row: map<string, JsValue>, columns: seq<GridColumn>, host: Host)
    ensures |RowCells(row, columns, host)| == |Visible(columns)|
    ensures forall k :: 0 <= k < |Visible(columns)| ==>
      RowCells(row, columns, host)[k] == DataCellFor(row, Visible(columns)[k], host)
  {
    if columns != [] {
      RowCellsAt(row, columns[..|columns| - 1], host);
    }
  }

  /** The header has one cell per visible column, in column order, plus the
      '#' cell in front exactly when row numbers are shown; every column cell
      is sortable exactly when sorting is on. */
  lemma GridHeaderShape(columns: seq<GridColumn>, showRowNumbers: bool, allowSorting: bool)
    ensures var header := GridHeaderRow(columns, showRowNumbers, allowSorting);
      var vis := Visible(columns);
      var off := if showRowNumbers then 1 else 0;
      && |header| == |vis| + off
      && (showRowNumbers ==> header[0] == RowNumberHeader)
      && (forall k :: 0 <= k < |vis| ==>
            header[k + off].ColumnHeader? && header[k + off].columnId == vis[k].id
            && header[k + off].sortable == allowSorting)
  {
    ColumnHeadersAt(columns, allowSorting);
  }

  /** Body row i carries data-row-index i, shows the number i+1, is
      alternate exactly when alternation is on and i is odd, and has one data
      cell per visible column, in the header's order. */
  lemma GridRowShape(row: map<string, JsValue>, i: nat, columns: seq<GridColumn>, showRowNumbers: bool,
                     alternateRowColor: bool, allowSelection: bool, host: Host)
    ensures var r := GridRowFor(row, i, columns, showRowNumbers, alternateRowColor, allowSelection, host);
      var vis := Visible(columns);
      var off := if showRowNumbers then 1 else 0;
      && |r.cells| == |vis| + off
      && r.rowIndexAttr == NatToDecimal(i)
      && (r.alternate <==> alternateRowColor && i % 2 == 1)
      && r.selectable == allowSelection
      && (showRowNumbers ==> r.cells[0] == RowNumberCell(NatToDecimal(i + 1)))
      && (forall k :: 0 <= k < |vis| ==> r.cells[k + off] == DataCellFor(row, vis[k], host))
  {
    RowCellsAt(row, columns, host);
  }

  /** The shape of a rendered grid: one body row per datum, each with as
      many cells as the header row, and the footer counting the data. */
  lemma GridShape(options: GridOptions, host: Host)
    ensures var header := GridHeaderRow(options.columns, options.showRowNumbers, options.allowSorting);
      var rows := GridDataRows(options.data, options.columns, options.showRowNumbers,
                               options.alternateRowColor, options.allowSelection, host);
      && |rows| == |options.data|
      && (forall i :: 0 <= i < |rows| ==> |rows[i].cells| == |header| && rows[i].rowIndexAttr == NatToDecimal(i))
  {
    GridHeaderShape(options.columns, options.showRowNumbers, options.allowSorting);
    var rows := GridDataRows(options.data, options.columns, options.showRowNumbers,
                             options.alternateRowColor, options.allowSelection, host);
    forall i | 0 <= i < |rows|
      ensures |rows[i].cells| == |GridHeaderRow(options.columns, options.showRowNumbers, options.allowSorting)|
      ensures rows[i].rowIndexAttr == NatToDecimal(i)
    {
      GridRowShape(options.data[i], i, options.columns, options.showRowNumbers,
                   options.alternateRowColor, options.allowSelection, host);
    }
  }

  /** Only visible columns reach the header: a hidden column contributes
      no cell. */
  lemma HiddenColumnsHaveNoHeader(columns: seq<GridColumn>, showRowNumbers: bool, allowSorting: bool, c: GridColumn)
    requires c in columns && !c.visible
    requires forall d :: d in columns && d.id == c.id ==> d == c
    ensures forall h :: h in GridHeaderRow(columns, showRowNumbers, allowSorting) && h.ColumnHeader? ==> h.columnId != c.id
  {
    VisibleMembers(columns);
    ColumnHeadersAt(columns, allowSorting);
    var hs := ColumnHeaders(columns, allowSorting);
    forall h | h in GridHeaderRow(columns, showRowNumbers, allowSorting) && h.ColumnHeader?
      ensures h.columnId != c.id
    {
      assert h in hs;
      var k :| 0 <= k < |hs| && hs[k] == h;
      assert Visible(columns)[k] in Visible(columns);
    }
  }
}
