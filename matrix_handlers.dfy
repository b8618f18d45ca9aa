// The matrix's handlers over a page of mounted matrices: the two scroll
// buttons, the row-number click (as written and as evidently intended), and
// the add-row and delete-row handlers.

module MatrixHandlers {
  import opened Text
  import opened Dom
  import opened Events
  import opened MatrixRender

  const MatrixRowClass := "sbo-matrix-row"
  const SelectableRowClass := "sbo-matrix-row--selectable"
  const SelectedMatrixRowClass := "sbo-matrix-row--selected"
  const MatrixRowIndexAttr := "data-row-index"
  /** The class handleMatrixRowNumberClick looks the matrix up by. */
  const PlainMatrixClass := "sbo-matrix"
  const ScrollStep := 30
  const DeleteWarning := "Silmek için bir satır seçiniz."

  /** The fixed classes of the elements between a row-number cell and its
      row, and between the row and the wrapper. */
  const RowNumberCellClasses: set<string> := {"sbo-matrix-cell", "sbo-matrix-cell--row-number"}
  const BodyClasses: set<string> := {"sbo-matrix-body"}
  const TableClasses: set<string> := {"sbo-matrix-table"}
  const ContainerClasses: set<string> := {"sbo-matrix-container"}

  /** A matrix in the page: the wrapper's id and classes, its body rows in
      document order, whether its `.sbo-matrix-container` is present, and
      that container's scroll offset. */
  datatype MatrixState = MatrixState(id: string, classes: set<string>, rows: seq<Elem>, hasContainer: bool, scrollTop: int)

  /** The element the row builder produces for a body row. */
  function MatrixRowNode(r: MatrixRow): Elem
  {
    Elem({MatrixRowClass} + (if r.selectable then {SelectableRowClass} else {}), map[MatrixRowIndexAttr := r.rowIndexAttr])
  }

  /** A rendered matrix as inserted into the page. */
  function MountMatrix(view: MatrixView): MatrixState
  {
    MatrixState(view.id, view.classes, seq(|view.rows|, j requires 0 <= j < |view.rows| => MatrixRowNode(view.rows[j])), true, 0)
  }

  /** `document.getElementById(id)` over the matrices of the page: the
      first one carrying the id. */
  function FindMatrix(ms: seq<MatrixState>, id: string): (r: Option<nat>)
    ensures r.Some? ==> r.value < |ms| && ms[r.value].id == id
    ensures r.Some? ==> forall j :: 0 <= j < r.value ==> ms[j].id != id
    ensures r.None? ==> forall j :: 0 <= j < |ms| ==> ms[j].id != id
  {
    if ms == [] then None
    else if ms[0].id == id then Some(0)
    else match FindMatrix(ms[1..], id)
      case None => None
      case Some(j) => Some(j + 1)
  }

  /** The class lists from the row-number cell of row r up to the matrix
      wrapper: the cell, the row, the body, the table, the container and the
      wrapper. The wrapper sits directly in the page, whose own elements
      carry no class. */
  function Ancestors(m: MatrixState, r: nat): seq<set<string>>
    requires r < |m.rows|
  {
    [RowNumberCellClasses, m.rows[r].classes, BodyClasses, TableClasses, ContainerClasses, m.classes]
  }

  /** `element.closest('.c')` along a chain of class lists: the nearest
      element carrying the class. */
  function Closest(chain: seq<set<string>>, c: string): (r: Option<nat>)
    ensures r.Some? ==> r.value < |chain| && c in chain[r.value]
    ensures r.Some? ==> forall j :: 0 <= j < r.value ==> c !in chain[j]
    ensures r.None? ==> forall j :: 0 <= j < |chain| ==> c !in chain[j]
  {
    if chain == [] then None
    else if c in chain[0] then Some(0)
    else match Closest(chain[1..], c)
      case None => None
      case Some(j) => Some(j + 1)
  }

  /** `matrix.querySelector('.sbo-matrix-row--selected')` found a row. */
  predicate HasSelectedRow(m: MatrixState)
  {
    exists j :: 0 <= j < |m.rows| && HasClass(m.rows[j], SelectedMatrixRowClass)
  }

  /** No element of the matrix carries the bare class `sbo-matrix`. */
  predicate LacksPlainMatrixClass(m: MatrixState)
  {
    PlainMatrixClass !in m.classes && forall j :: 0 <= j < |m.rows| ==> PlainMatrixClass !in m.rows[j].classes
  }

  /** What handleMatrixDeleteRow does for an id. */
  datatype DeleteOutcome = NoMatrix | Warned | Deleted

  function DeleteOutcomeFor(ms: seq<MatrixState>, matrixId: string): DeleteOutcome
  {
    match FindMatrix(ms, matrixId)
    case None => NoMatrix
    case Some(k) => if HasSelectedRow(ms[k]) then Deleted else Warned
  }

  /** The rows of a matrix with the selection moved to row r alone. */
  function SelectOnly(rows: seq<Elem>, r: nat): seq<Elem>
  {
    seq(|rows|, j requires 0 <= j < |rows| =>
      if j == r then AddClass(rows[j], SelectedMatrixRowClass) else RemoveClass(rows[j], SelectedMatrixRowClass))
  }

  /** The matrices of the page after the container of the first matrix
      with the id has scrolled by d; without that matrix or its container
      nothing moves. */
  function ScrolledBy(ms: seq<MatrixState>, matrixId: string, d: int): (r: seq<MatrixState>)
    ensures |r| == |ms|
    ensures forall j :: 0 <= j < |ms| ==> r[j] == ms[j].(scrollTop := r[j].scrollTop)
    ensures forall j :: 0 <= j < |ms| && r[j].scrollTop != ms[j].scrollTop ==>
      FindMatrix(ms, matrixId) == Some(j) && ms[j].hasContainer && r[j].scrollTop == ms[j].scrollTop + d
  {
    match FindMatrix(ms, matrixId)
    case None => ms
    case Some(k) =>
      if ms[k].hasContainer then ms[k := ms[k].(scrollTop := ms[k].scrollTop + d)] else ms
  }

  class MatrixPage {
    /** The matrix wrappers of the page, in document order. */
    var matrices: seq<MatrixState>

    /** A page holding the rendered matrices. */
    constructor Mount(views: seq<MatrixView>)
      ensures matrices == seq(|views|, k requires 0 <= k < |views| => MountMatrix(views[k]))
    {
      matrices := seq(|views|, k requires 0 <= k < |views| => MountMatrix(views[k]));
    }

    /** handleMatrixScrollUp(matrixId): the container of the matrix moves
        up by 30; a missing matrix or container changes nothing. */
    method ScrollUp(matrixId: string)
      modifies this
      ensures matrices == ScrolledBy(old(matrices), matrixId, -ScrollStep)
    {
      var found := FindMatrix(matrices, matrixId);
      if found.None? {
        return;
      }
      var k := found.value;
      if matrices[k].hasContainer {
        matrices := matrices[k := matrices[k].(scrollTop := matrices[k].scrollTop - ScrollStep)];
      }
    }

    /** handleMatrixScrollDown(matrixId): the container moves down by 30. */
    method ScrollDown(matrixId: string)
      modifies this
      ensures matrices == ScrolledBy(old(matrices), matrixId, ScrollStep)
    {
      var found := FindMatrix(matrices, matrixId);
      if found.None? {
        return;
      }
      var k := found.value;
      if matrices[k].hasContainer {
        matrices := matrices[k := matrices[k].(scrollTop := matrices[k].scrollTop + ScrollStep)];
      }
    }

    /** handleMatrixRowNumberClick(cell, rowIndex) as written, the cell being
        the row-number cell of row r of matrix m. The matrix is looked up as
        `cell.closest('.sbo-matrix')`: when nothing carries that class the
        lookup gives null, the next line throws a TypeError and nothing
        changes. When the row itself carries it, the rows below the row are
        none, so only the row gains the selection. */
    method HandleRowNumberClickAsWritten(m: nat, r: nat, rowIndex: int, log: EventLog)
      requires m < |matrices| && r < |matrices[m].rows|
      modifies this, log
      ensures Closest(Ancestors(old(matrices[m]), r), PlainMatrixClass).None? ==>
        matrices == old(matrices) && log.events == old(log.events)
      ensures Closest(Ancestors(old(matrices[m]), r), PlainMatrixClass) == Some(5) ==>
        matrices == old(matrices)[m := old(matrices[m]).(rows := SelectOnly(old(matrices[m].rows), r))]
        && log.events == old(log.events) + [MatrixRowSelected(rowIndex)]
      ensures Closest(Ancestors(old(matrices[m]), r), PlainMatrixClass) == Some(1) ==>
        matrices == old(matrices)[m := old(matrices[m]).(rows := old(matrices[m].rows)[r := AddClass(old(matrices[m].rows[r]), SelectedMatrixRowClass)])]
        && log.events == old(log.events) + [MatrixRowSelected(rowIndex)]
      ensures log.alerts == old(log.alerts)
    {
      var found := Closest(Ancestors(matrices[m], r), PlainMatrixClass);
      if found.None? {
        // matrix is null: matrix.querySelectorAll throws before any change
        return;
      }
      var rows := matrices[m].rows;
      if found.value == 5 {
        var i := 0;
        while i < |rows|
          invariant 0 <= i <= |rows| == |matrices[m].rows|
          invariant forall j :: 0 <= j < i ==> rows[j] == RemoveClass(matrices[m].rows[j], SelectedMatrixRowClass)
          invariant forall j :: i <= j < |rows| ==> rows[j] == matrices[m].rows[j]
          invariant matrices == old(matrices) && unchanged(log)
        {
          rows := rows[i := RemoveClass(rows[i], SelectedMatrixRowClass)];
          i := i + 1;
        }
      }
      rows := rows[r := AddClass(rows[r], SelectedMatrixRowClass)];
      if found.value == 5 {
        assert forall j :: 0 <= j < |rows| ==> rows[j] == SelectOnly(matrices[m].rows, r)[j];
        assert rows == SelectOnly(matrices[m].rows, r);
      }
      matrices := matrices[m := matrices[m].(rows := rows)];
      log.Dispatch(MatrixRowSelected(rowIndex));
    }

    /** handleMatrixRowNumberClick with the matrix looked up as the wrapper
        holding the cell: afterwards row r is the one selected row of its
        matrix, the other matrices are untouched, and the event carries the
        row index. */
    method HandleRowNumberClick(m: nat, r: nat, rowIndex: int, log: EventLog)
      requires m < |matrices| && r < |matrices[m].rows|
      modifies this, log
      ensures |matrices| == old(|matrices|)
      ensures forall j :: 0 <= j < |matrices| && j != m ==> matrices[j] == old(matrices[j])
      ensures matrices[m] == old(matrices[m]).(rows := SelectOnly(old(matrices[m].rows), r))
      ensures forall j :: 0 <= j < |matrices[m].rows| ==> (HasClass(matrices[m].rows[j], SelectedMatrixRowClass) <==> j == r)
      ensures HasSelectedRow(matrices[m])
      ensures log.events == old(log.events) + [MatrixRowSelected(rowIndex)]
      ensures log.alerts == old(log.alerts)
    {
      var rows := RemoveClassFromAll(matrices[m].rows, SelectedMatrixRowClass);
      rows := rows[r := AddClass(rows[r], SelectedMatrixRowClass)];
      assert forall j :: 0 <= j < |rows| ==> rows[j] == SelectOnly(matrices[m].rows, r)[j];
      matrices := matrices[m := matrices[m].(rows := rows)];
      assert HasClass(matrices[m].rows[r], SelectedMatrixRowClass);
      log.Dispatch(MatrixRowSelected(rowIndex));
    }

    /** handleMatrixAddRow(matrixId): a missing matrix is a no-op; otherwise
        one row-added event. The page itself does not change. */
    method HandleAddRow(matrixId: string, log: EventLog)
      modifies log
      ensures FindMatrix(matrices, matrixId).None? ==> log.events == old(log.events)
      ensures FindMatrix(matrices, matrixId).Some? ==> log.events == old(log.events) + [MatrixRowAdded(matrixId)]
      ensures log.alerts == old(log.alerts)
    {
      var found := FindMatrix(matrices, matrixId);
      if found.None? {
        return;
      }
      log.Dispatch(MatrixRowAdded(matrixId));
    }

    /** handleMatrixDeleteRow(matrixId): a missing matrix is a no-op; with no
        selected row the user is warned and no event is emitted; otherwise
        exactly one row-deleted event. The page itself does not change. */
    method HandleDeleteRow(matrixId: string, log: EventLog)
      modifies log
      ensures DeleteOutcomeFor(matrices, matrixId) == NoMatrix ==>
        log.events == old(log.events) && log.alerts == old(log.alerts)
      ensures DeleteOutcomeFor(matrices, matrixId) == Warned ==>
        log.events == old(log.events) && log.alerts == old(log.alerts) + [DeleteWarning]
      ensures DeleteOutcomeFor(matrices, matrixId) == Deleted ==>
        log.events == old(log.events) + [MatrixRowDeleted(matrixId)] && log.alerts == old(log.alerts)
    {
      var found := FindMatrix(matrices, matrixId);
      if found.None? {
        return;
      }
      var k := found.value;
      var i := 0;
      var selected := false;
      while i < |matrices[k].rows| && !selected
        invariant 0 <= i <= |matrices[k].rows|
        invariant selected <==> exists j :: 0 <= j < i && HasClass(matrices[k].rows[j], SelectedMatrixRowClass)
      {
        selected := HasClass(matrices[k].rows[i], SelectedMatrixRowClass);
        i := i + 1;
      }
      if !selected {
        log.Alert(DeleteWarning);
        return;
      }
      log.Dispatch(MatrixRowDeleted(matrixId));
    }
  }

  /** A mounted matrix carries no bare `sbo-matrix` class: its wrapper is
      `sbo-matrix-wrapper` and its rows `sbo-matrix-row`. */
  lemma MountedLacksPlainMatrixClass(options: MatrixOptions, view: MatrixView)
    requires view.classes == {WrapperClass} + (if options.isDisabled then {"sbo-matrix-wrapper--disabled"} else {})
    ensures LacksPlainMatrixClass(MountMatrix(view))
  {
  }

  /** Selecting a row by the wrapper keeps the matrix free of the bare
      class, so the as-written handler keeps failing. */
  lemma SelectOnlyKeepsLacking(m: MatrixState, r: nat)
    requires LacksPlainMatrixClass(m)
    ensures LacksPlainMatrixClass(m.(rows := SelectOnly(m.rows, r)))
  {
    var rows := SelectOnly(m.rows, r);
    forall j | 0 <= j < |rows|
      ensures PlainMatrixClass !in rows[j].classes
    {
      assert PlainMatrixClass !in m.rows[j].classes;
    }
  }

  /** The row-number click as written never finds the matrix of a matrix
      free of the bare class, rendered ones included: `closest` runs from
      the cell through the row, body, table and container to the wrapper
      and none of them is `.sbo-matrix`. */
  lemma RowNumberClickFindsNoMatrix(m: MatrixState, r: nat)
    requires r < |m.rows| && LacksPlainMatrixClass(m)
    ensures Closest(Ancestors(m, r), PlainMatrixClass) == None
  {
    var chain := Ancestors(m, r);
    forall j | 0 <= j < |chain|
      ensures PlainMatrixClass !in chain[j]
    {
      if j == 1 {
        assert chain[1] == m.rows[r].classes;
      }
    }
  }

  /** The wrapper lookup of the corrected handler succeeds on every
      rendered matrix, at the wrapper itself. */
  lemma RowNumberClickFindsWrapper(options: MatrixOptions, view: MatrixView, r: nat)
    requires view.classes == {WrapperClass} + (if options.isDisabled then {"sbo-matrix-wrapper--disabled"} else {})
    requires r < |view.rows|
    ensures Closest(Ancestors(MountMatrix(view), r), WrapperClass) == Some(5)
  {
    var m := MountMatrix(view);
    var chain := Ancestors(m, r);
    assert chain[1] == MatrixRowNode(view.rows[r]).classes;
    assert WrapperClass !in chain[0] && WrapperClass !in chain[1] && WrapperClass !in chain[2];
    assert WrapperClass !in chain[3] && WrapperClass !in chain[4] && WrapperClass in chain[5];
    var c := Closest(chain, WrapperClass);
    assert c.Some?;
  }

  /** Scrolling down and then up returns the page to where it was (the
      browser's clamping of the offset is not modelled): the second scroll
      finds the same matrix, since scrolling keeps every id. */
  lemma ScrollRoundTrip(ms: seq<MatrixState>, matrixId: string)
    ensures ScrolledBy(ScrolledBy(ms, matrixId, ScrollStep), matrixId, -ScrollStep) == ms
  {
    var down := ScrolledBy(ms, matrixId, ScrollStep);
    FindMatrixSameIds(down, ms, matrixId);
  }

  /** Two pages whose matrices carry the same ids position by position find
      the same matrix for an id. */
  lemma {:induction false} FindMatrixSameIds(a: seq<MatrixState>, b: seq<MatrixState>, matrixId: string)
    requires |a| == |b| && forall j :: 0 <= j < |a| ==> a[j].id == b[j].id
    ensures FindMatrix(a, matrixId) == FindMatrix(b, matrixId)
  {
    if a != [] && a[0].id != matrixId {
      FindMatrixSameIds(a[1..], b[1..], matrixId);
    }
  }

  /** The delete handler emits its event exactly when the matrix exists
      and one of its rows is selected, and warns exactly when the matrix
      exists with no row selected. */
  lemma DeleteOutcomeIff(ms: seq<MatrixState>, matrixId: string)
    ensures DeleteOutcomeFor(ms, matrixId) == Deleted <==>
      exists k :: 0 <= k < |ms| && ms[k].id == matrixId && HasSelectedRow(ms[k]) && forall j :: 0 <= j < k ==> ms[j].id != matrixId
    ensures DeleteOutcomeFor(ms, matrixId) == NoMatrix <==> forall k :: 0 <= k < |ms| ==> ms[k].id != matrixId
  {
    var f := FindMatrix(ms, matrixId);
    if f.Some? {
      var k := f.value;
      if DeleteOutcomeFor(ms, matrixId) != Deleted {
        forall k' | 0 <= k' < |ms| && ms[k'].id == matrixId && forall j :: 0 <= j < k' ==> ms[j].id != matrixId
          ensures !HasSelectedRow(ms[k'])
        {
          assert k' == k;
        }
      }
    }
  }

  /** After a row is selected through the corrected handler, deleting in
      that matrix emits the delete event and no warning. */
  method SelectThenDelete(views: seq<MatrixView>, m: nat, r: nat, log: EventLog)
    requires m < |views| && r < |views[m].rows|
    requires forall j :: 0 <= j < |views| ==> views[j].id != views[m].id || j == m
    modifies log
    ensures log.events == old(log.events) + [MatrixRowSelected(r), MatrixRowDeleted(views[m].id)]
    ensures log.alerts == old(log.alerts)
  {
    var page := new MatrixPage.Mount(views);
    page.HandleRowNumberClick(m, r, r, log);
    assert page.matrices[m].id == views[m].id;
    var f := FindMatrix(page.matrices, views[m].id);
    assert f == Some(m);
    page.HandleDeleteRow(views[m].id, log);
  }
}
