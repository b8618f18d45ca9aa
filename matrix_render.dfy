// createSBOMatrix and its builders: a header row, `rowCount` empty editable
// rows whose cells hold a control chosen by the column type, and the
// control bar under the table.

module MatrixRender {
  import opened Text
  import opened Js
  import opened Fields

  /** A matrix column. `visible`, `editable` and `isPassword` are the
      truthiness of the configuration's flags; an absent width or type is "";
      tabOrder and allowEmpty keep the configured value as it is. */
  datatype MatrixColumn = MatrixColumn(
    id: string,
    title: string,
    width: string,
    columnType: string,
    visible: bool,
    editable: bool,
    tabOrder: JsValue,
    dataSource: Option<string>,
    isPassword: bool,
    maxLength: Option<int>,
    values: seq<ComboItem>,
    allowEmpty: JsValue,
    linkedObject: Option<string>)

  /** The options every cell control is built with. */
  datatype CellBase = CellBase(uniqueId: string, dataSource: Option<string>, isDisabled: bool, tabIndex: Option<int>)

  /** The control a data cell holds; the widget builders that turn these
      into markup are collaborators of the matrix. */
  datatype MatrixControl =
    | EditTextControl(base: CellBase, isPassword: bool, maxLength: Option<int>, linkedObject: Option<string>)
    | ComboBoxControl(base: CellBase, options: seq<OptionView>)
    | CheckBoxControl(base: CellBase)
    | LinkedPair(edit: CellBase, linkedObject: Option<string>, buttonLinkTo: string)
    | NoControl

  datatype MatrixHeaderCell =
    | MatrixRowNumberHeader
    | MatrixColumnHeader(columnId: string, title: string, width: string, columnType: string)

  /** A body cell: the row-number cell (whose click passes the row index),
      or a data cell with its data-row-index attribute and control. */
  datatype MatrixCell =
    | MatrixRowNumberCell(rowIndex: nat, numberText: string)
    | MatrixDataCell(columnId: string, rowIndexAttr: string, content: MatrixControl)

  datatype MatrixRow = MatrixRow(rowIndexAttr: string, selectable: bool, cells: seq<MatrixCell>)

  datatype MatrixButton = ScrollUpButton | ScrollDownButton | AddRowButton | DeleteRowButton

  datatype MatrixOptions = MatrixOptions(
    uniqueId: string,
    columns: seq<MatrixColumn>,
    rowCount: int,
    showRowNumbers: bool,
    allowAddRow: bool,
    allowDeleteRow: bool,
    allowRowSelection: bool,
    isDisabled: bool)

  datatype MatrixView = MatrixView(
    id: string,
    classes: set<string>,
    allowAddRow: bool,
    allowDeleteRow: bool,
    rowCountAttr: string,
    header: seq<MatrixHeaderCell>,
    rows: seq<MatrixRow>,
    controls: seq<MatrixButton>)

  const WrapperClass := "sbo-matrix-wrapper"

  /** The visible columns, in order. */
  function MatrixVisible(columns: seq<MatrixColumn>): seq<MatrixColumn>
  {
    if columns == [] then []
    else
      var last := columns[|columns| - 1];
      MatrixVisible(columns[..|columns| - 1]) + (if last.visible then [last] else [])
  }

  /** `${matrixId}_${i}_${column.id}` */
  function CellId(matrixId: string, i: nat, columnId: string): string
  {
    matrixId + "_" + NatToDecimal(i) + "_" + columnId
  }

  /** `parseInt(column.tabOrder || 0)`. A number is converted to its decimal
      text and read back; a Date's text starts with the weekday name and a
      boolean's is "true", so both read as NaN (None). */
  function TabOrderValue(tabOrder: JsValue): Option<int>
  {
    if !Truthy(tabOrder) then Some(0)
    else match tabOrder
      case Num(n) => ParseInt(IntToDecimal(n))
      case Str(s) => ParseInt(s)
      case _ => None
  }

  /** `(rowIndex * 100) + parseInt(column.tabOrder || 0)`; None is NaN. */
  function TabIndex(rowIndex: nat, column: MatrixColumn): Option<int>
  {
    match TabOrderValue(column.tabOrder)
    case None => None
    case Some(t) => Some(rowIndex * 100 + t)
  }

  /** createMatrixCellContent(column, cellId, rowIndex): the control is
      chosen by the column type, compared case-sensitively; 'static' gives an
      empty cell and any other type an EditText. */
  function CellContent(column: MatrixColumn, cellId: string, rowIndex: nat): MatrixControl
  {
    var base := CellBase(cellId, column.dataSource, !column.editable, TabIndex(rowIndex, column));
    if column.columnType == "edittext" then
      EditTextControl(base, column.isPassword, column.maxLength, None)
    else if column.columnType == "combobox" then
      ComboBoxControl(base, ComboOptionList(column.values, [], "", column.allowEmpty != Bool(false)))
    else if column.columnType == "CheckBox" then
      CheckBoxControl(base)
    else if column.columnType == "LinkedButton" then
      LinkedPair(base, column.linkedObject, cellId)
    else if column.columnType == "static" then
      NoControl
    else
      EditTextControl(base, false, None, None)
  }

  function MatrixHeaderFor(column: MatrixColumn): MatrixHeaderCell
  {
    MatrixColumnHeader(column.id, column.title,
                       if column.width == "" then "auto" else column.width,
                       if column.columnType == "" then "EditText" else column.columnType)
  }

  /** The column cells of the header row, hidden columns skipped. */
  function MatrixColumnHeaders(columns: seq<MatrixColumn>): seq<MatrixHeaderCell>
  {
    if columns == [] then []
    else
      var last := columns[|columns| - 1];
      MatrixColumnHeaders(columns[..|columns| - 1]) + (if last.visible then [MatrixHeaderFor(last)] else [])
  }

  /** createMatrixHeaderRow, as a value. */
  function MatrixHeaderRow(columns: seq<MatrixColumn>, showRowNumbers: bool): seq<MatrixHeaderCell>
  {
    (if showRowNumbers then [MatrixRowNumberHeader] else []) + MatrixColumnHeaders(columns)
  }

  function MatrixCellFor(column: MatrixColumn, i: nat, matrixId: string): MatrixCell
  {
    MatrixDataCell(column.id, NatToDecimal(i), CellContent(column, CellId(matrixId, i, column.id), i))
  }

  /** The data cells of row i, hidden columns skipped. */
  function MatrixRowCells(columns: seq<MatrixColumn>, i: nat, matrixId: string): seq<MatrixCell>
  {
    if columns == [] then []
    else
      var last := columns[|columns| - 1];
      MatrixRowCells(columns[..|columns| - 1], i, matrixId) + (if last.visible then [MatrixCellFor(last, i, matrixId)] else [])
  }

  function MatrixRowFor(columns: seq<MatrixColumn>, i: nat, showRowNumbers: bool, allowRowSelection: bool, matrixId: string): MatrixRow
  {
    MatrixRow(NatToDecimal(i), allowRowSelection,
              (if showRowNumbers then [MatrixRowNumberCell(i, NatToDecimal(i + 1))] else [])
              + MatrixRowCells(columns, i, matrixId))
  }

  /** Number of iterations of `for (let i = 0; i < rowCount; i++)`. */
  function RowsFor(rowCount: int): nat
  {
    if rowCount < 0 then 0 else rowCount
  }

  /** createMatrixDataRows, as a value. */
  function MatrixDataRows(columns: seq<MatrixColumn>, rowCount: int, showRowNumbers: bool, allowRowSelection: bool, matrixId: string): seq<MatrixRow>
  {
    seq(RowsFor(rowCount), i requires 0 <= i < RowsFor(rowCount) =>
      MatrixRowFor(columns, i, showRowNumbers, allowRowSelection, matrixId))
  }

  /** The control bar createSBOMatrix renders: only the two scroll buttons. */
  const RenderedControls: seq<MatrixButton> := [ScrollUpButton, ScrollDownButton]

  /** createMatrixControlButtons(matrixId, allowAddRow, allowDeleteRow): an
      add button when adding is allowed, then a delete button when deleting
      is allowed. Nothing calls it. */
  function MatrixControlButtons(allowAddRow: bool, allowDeleteRow: bool): seq<MatrixButton>
  {
    (if allowAddRow then [AddRowButton] else []) + (if allowDeleteRow then [DeleteRowButton] else [])
  }

  /** The control bar with the add and delete buttons the matrix's options
      and handlers are evidently meant for. */
  function IntendedControls(allowAddRow: bool, allowDeleteRow: bool): seq<MatrixButton>
  {
    RenderedControls + MatrixControlButtons(allowAddRow, allowDeleteRow)
  }

  /** The header-row builder. */
  method CreateMatrixHeaderRow(columns: seq<MatrixColumn>, showRowNumbers: bool) returns (headerCells: seq<MatrixHeaderCell>)
    ensures headerCells == MatrixHeaderRow(columns, showRowNumbers)
  {
    headerCells := [];
    if showRowNumbers {
      headerCells := headerCells + [MatrixRowNumberHeader];
    }
    var prefix := headerCells;
    var i := 0;
    while i < |columns|
      invariant 0 <= i <= |columns|
      invariant headerCells == prefix + MatrixColumnHeaders(columns[..i])
    {
      var column := columns[i];
      assert columns[..i + 1][..i] == columns[..i];
      if column.visible {
        var width := if column.width == "" then "auto" else column.width;
        var columnType := if column.columnType == "" then "EditText" else column.columnType;
        headerCells := headerCells + [MatrixColumnHeader(column.id, column.title, width, columnType)];
      }
      i := i + 1;
    }
    assert columns[..i] == columns;
  }

  /** The cells of row i: the row-number cell, then one data cell per
      visible column. */
  method BuildMatrixRowCells(columns: seq<MatrixColumn>, i: nat, showRowNumbers: bool, matrixId: string)
    returns (cells: seq<MatrixCell>)
    ensures cells == MatrixRowFor(columns, i, showRowNumbers, false, matrixId).cells
  {
    cells := [];
    if showRowNumbers {
      cells := cells + [MatrixRowNumberCell(i, NatToDecimal(i + 1))];
    }
    var prefix := cells;
    var c := 0;
    while c < |columns|
      invariant 0 <= c <= |columns|
      invariant cells == prefix + MatrixRowCells(columns[..c], i, matrixId)
    {
      var column := columns[c];
      assert columns[..c + 1][..c] == columns[..c];
      if column.visible {
        var cellId := matrixId + "_" + NatToDecimal(i) + "_" + column.id;
        var cellContent := CellContent(column, cellId, i);
        cells := cells + [MatrixDataCell(column.id, NatToDecimal(i), cellContent)];
      }
      c := c + 1;
    }
    assert columns[..c] == columns;
  }

  /** The body builder: `for (let i = 0; i < rowCount; i++) rows.push(...)`. */
  method CreateMatrixDataRows(columns: seq<MatrixColumn>, rowCount: int, showRowNumbers: bool, allowRowSelection: bool, matrixId: string)
    returns (rows: seq<MatrixRow>)
    ensures rows == MatrixDataRows(columns, rowCount, showRowNumbers, allowRowSelection, matrixId)
  {
    rows := [];
    var i := 0;
    while i < rowCount
      invariant 0 <= i == |rows|
      invariant i <= RowsFor(rowCount)
      invariant forall j :: 0 <= j < i ==> rows[j] == MatrixRowFor(columns, j, showRowNumbers, allowRowSelection, matrixId)
    {
      var cells := BuildMatrixRowCells(columns, i, showRowNumbers, matrixId);
      rows := rows + [MatrixRow(NatToDecimal(i), allowRowSelection, cells)];
      i := i + 1;
    }
  }

  /** createSBOMatrix */
  method CreateSBOMatrix(options: MatrixOptions) returns (view: MatrixView)
    ensures view.id == options.uniqueId
    ensures view.classes == {WrapperClass} + (if options.isDisabled then {"sbo-matrix-wrapper--disabled"} else {})
    ensures view.allowAddRow == options.allowAddRow && view.allowDeleteRow == options.allowDeleteRow
    ensures view.rowCountAttr == IntToDecimal(options.rowCount)
    ensures view.header == MatrixHeaderRow(options.columns, options.showRowNumbers)
    ensures view.rows == MatrixDataRows(options.columns, options.rowCount, options.showRowNumbers,
                                        options.allowRowSelection, options.uniqueId)
    ensures view.controls == RenderedControls
  {
    var headerRow := CreateMatrixHeaderRow(options.columns, options.showRowNumbers);
    var dataRows := CreateMatrixDataRows(options.columns, options.rowCount, options.showRowNumbers,
                                         options.allowRowSelection, options.uniqueId);
    var classes := if options.isDisabled then {WrapperClass, "sbo-matrix-wrapper--disabled"} else {WrapperClass};
    view := MatrixView(options.uniqueId, classes, options.allowAddRow, options.allowDeleteRow,
                       IntToDecimal(options.rowCount), headerRow, dataRows,
                       [ScrollUpButton, ScrollDownButton]);
  }

  lemma {:induction false} MatrixColumnHeadersAt(columns: seq<MatrixColumn>)
    ensures |MatrixColumnHeaders(columns)| == |MatrixVisible(columns)|
    ensures forall k :: 0 <= k < |MatrixVisible(columns)| ==>
      MatrixColumnHeaders(columns)[k] == MatrixHeaderFor(MatrixVisible(columns)[k])
  {
    if columns != [] {
      MatrixColumnHeadersAt(columns[..|columns| - 1]);
    }
  }

  lemma {:induction false} MatrixRowCellsAt(columns: seq<MatrixColumn>, i: nat, matrixId: string)
    ensures |MatrixRowCells(columns, i, matrixId)| == |MatrixVisible(columns)|
    ensures forall k :: 0 <= k < |MatrixVisible(columns)| ==>
      MatrixRowCells(columns, i, matrixId)[k] == MatrixCellFor(MatrixVisible(columns)[k], i, matrixId)
  {
    if columns != [] {
      MatrixRowCellsAt(columns[..|columns| - 1], i, matrixId);
    }
  }

  /** Row i has data-row-index i, the number i+1 in its row-number cell
      when shown, one cell per visible column after it, and data cell k
      belongs to the k-th visible column and holds that column's content
      for row i. */
  lemma MatrixRowShape(columns: seq<MatrixColumn>, i: nat, showRowNumbers: bool, allowRowSelection: bool, matrixId: string)
    ensures var row := MatrixRowFor(columns, i, showRowNumbers, allowRowSelection, matrixId);
      var vis := MatrixVisible(columns);
      var off := if showRowNumbers then 1 else 0;
      && |row.cells| == |vis| + off
      && row.rowIndexAttr == NatToDecimal(i)
      && (showRowNumbers ==> row.cells[0] == MatrixRowNumberCell(i, NatToDecimal(i + 1)))
      && (forall k :: 0 <= k < |vis| ==> row.cells[k + off] == MatrixCellFor(vis[k], i, matrixId))
  {
    MatrixRowCellsAt(columns, i, matrixId);
  }

  /** The matrix renders exactly rowCount rows (none for a negative count),
      and the header has one cell per visible column plus the row-number
      cell when shown, so every row has as many cells as the header. */
  lemma MatrixShape(options: MatrixOptions)
    ensures var header := MatrixHeaderRow(options.columns, options.showRowNumbers);
      var rows := MatrixDataRows(options.columns, options.rowCount, options.showRowNumbers,
                                 options.allowRowSelection, options.uniqueId);
      && |header| == |MatrixVisible(options.columns)| + (if options.showRowNumbers then 1 else 0)
      && |rows| == (if options.rowCount < 0 then 0 else options.rowCount)
      && (forall i :: 0 <= i < |rows| ==> |rows[i].cells| == |header| && rows[i].rowIndexAttr == NatToDecimal(i))
  {
    MatrixColumnHeadersAt(options.columns);
    var rows := MatrixDataRows(options.columns, options.rowCount, options.showRowNumbers,
                               options.allowRowSelection, options.uniqueId);
    forall i | 0 <= i < |rows|
      ensures |rows[i].cells| == |MatrixHeaderRow(options.columns, options.showRowNumbers)|
    {
      MatrixRowCellsAt(options.columns, i, options.uniqueId);
    }
  }

  /** Every cell control except the 'static' one is built from the same base
      options: the id `matrixId_i_columnId`, disabled exactly when the column
      is not editable, and the tab index of the row and column. An
      unrecognised type gives a plain EditText. */
  lemma CellContentBase(column: MatrixColumn, matrixId: string, i: nat)
    ensures var c := CellContent(column, CellId(matrixId, i, column.id), i);
      && (c.NoControl? <==> column.columnType == "static")
      && (!c.NoControl? ==>
            var base := if c.LinkedPair? then c.edit else c.base;
            base.uniqueId == CellId(matrixId, i, column.id)
            && base.isDisabled == !column.editable
            && base.tabIndex == TabIndex(i, column))
      && (column.columnType !in {"edittext", "combobox", "CheckBox", "LinkedButton", "static"} ==>
            c == EditTextControl(CellBase(CellId(matrixId, i, column.id), column.dataSource, !column.editable, TabIndex(i, column)), false, None, None))
  {
  }

  /** The tab index is `i*100 + tabOrder`, the tab order counting as 0 when
      it is absent or zero. */
  lemma TabIndexOfNumber(column: MatrixColumn, i: nat)
    requires column.tabOrder.Num? || !Truthy(column.tabOrder)
    ensures TabIndex(i, column) == Some(i * 100 + (if column.tabOrder.Num? then column.tabOrder.n else 0))
  {
    if column.tabOrder.Num? && column.tabOrder.n != 0 {
      ParseIntRoundTrip(column.tabOrder.n, "");
      assert IntToDecimal(column.tabOrder.n) + "" == IntToDecimal(column.tabOrder.n);
    }
  }

  lemma {:induction false} UnderscoreSplit(a: string, c: string, b: string, d: string)
    requires forall k :: 0 <= k < |a| ==> a[k] != '_'
    requires forall k :: 0 <= k < |b| ==> b[k] != '_'
    requires a + "_" + c == b + "_" + d
    ensures a == b && c == d
  {
    var s := a + "_" + c;
    assert s[|a|] == '_' && s[|b|] == '_';
    assert |a| == |b|;
    assert a == s[..|a|] && c == s[|a| + 1..];
    assert b == s[..|b|] && d == s[|b| + 1..];
  }

  /** Cell ids of one matrix never collide: the id determines the row index
      and the column id. */
  lemma CellIdInjective(matrixId: string, i: nat, c: string, j: nat, d: string)
    requires CellId(matrixId, i, c) == CellId(matrixId, j, d)
    ensures i == j && c == d
  {
    var p := matrixId + "_";
    var x := NatToDecimal(i) + "_" + c;
    var y := NatToDecimal(j) + "_" + d;
    assert CellId(matrixId, i, c) == p + x;
    assert CellId(matrixId, j, d) == p + y;
    assert x == (p + x)[|p|..];
    assert y == (p + y)[|p|..];
    UnderscoreSplit(NatToDecimal(i), c, NatToDecimal(j), d);
    NatToDecimalInjective(i, j);
  }

  /** createSBOMatrix never renders an add or a delete button, whatever its
      options say: createMatrixControlButtons is never called. */
  lemma RenderedControlsLackAddDelete(options: MatrixOptions)
    ensures AddRowButton !in RenderedControls && DeleteRowButton !in RenderedControls
    ensures options.allowAddRow ==> AddRowButton in IntendedControls(options.allowAddRow, options.allowDeleteRow)
  {
  }

  /** The intended control bar keeps the scroll buttons and offers add
      exactly when adding is allowed and delete exactly when deleting is
      allowed. */
  lemma IntendedControlsOffer(allowAddRow: bool, allowDeleteRow: bool)
    ensures var cs := IntendedControls(allowAddRow, allowDeleteRow);
      && ScrollUpButton in cs && ScrollDownButton in cs
      && (AddRowButton in cs <==> allowAddRow)
      && (DeleteRowButton in cs <==> allowDeleteRow)
  {
  }
}
