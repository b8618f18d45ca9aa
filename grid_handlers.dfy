// The grid's two click handlers, handleGridSort and handleGridRowClick, over
// a live grid: the header cells (each with its sort icon) and the body rows,
// as the grid builder rendered them.

module GridHandlers {
  import opened Text
  import opened Dom
  import opened Events
  import opened GridRender

  const SortAttr := "data-sort"
  const RowIndexAttr := "data-row-index"
  const SortIconClass := "sbo-grid-sort-icon"
  const SelectedRowClass := "sbo-grid-row--selected"

  /** A header cell element and, when the column is sortable, the class list
      of its sort icon. */
  datatype HeaderNode = HeaderNode(cell: Elem, icon: Option<set<string>>)

  /** The sort cycle: none -> asc -> desc -> none; anything unexpected
      starts again at asc. */
  function NextSort(current: string): string
  {
    if current == "asc" then "desc" else if current == "desc" then "none" else "asc"
  }

  /** `headerCell.getAttribute('data-sort') || 'none'` */
  function CurrentSort(h: HeaderNode): string
  {
    match GetAttr(h.cell, SortAttr)
    case None => "none"
    case Some(s) => if s == "" then "none" else s
  }

  /** A header cell after the clearing pass: no data-sort attribute and a
      bare sort icon. */
  function ClearedHeader(h: HeaderNode): HeaderNode
  {
    HeaderNode(RemoveAttr(h.cell, SortAttr), if h.icon.Some? then Some({SortIconClass}) else None)
  }

  /** The clicked header cell after the handler has marked it. */
  function MarkedHeader(h: HeaderNode, direction: string): HeaderNode
  {
    HeaderNode(SetAttr(h.cell, SortAttr, direction),
               if h.icon.Some? then Some({SortIconClass, SortIconClass + "--" + direction}) else None)
  }

  /** `parseInt(row.getAttribute('data-row-index'))`; parseInt(null) reads
      the text "null", which is NaN. */
  function RowIndexOf(row: Elem): Option<int>
  {
    match GetAttr(row, RowIndexAttr)
    case None => None
    case Some(s) => ParseInt(s)
  }

  /** The element the header builder produces for a header cell. */
  function HeaderNodeFor(h: GridHeaderCell): HeaderNode
  {
    match h
    case RowNumberHeader =>
      HeaderNode(Elem({"sbo-grid-header-cell", "sbo-grid-header-cell--row-number"}, map[]), None)
    case ColumnHeader(id, _, _, dataType, sortable) =>
      HeaderNode(Elem({"sbo-grid-header-cell"} + (if sortable then {"sbo-grid-header-cell--sortable"} else {}),
                      map["data-column-id" := id, "data-data-type" := dataType]),
                 if sortable then Some({SortIconClass}) else None)
  }

  /** The element the row builder produces for a body row. */
  function RowNodeFor(r: GridRow): Elem
  {
    Elem({"sbo-grid-row"} + (if r.alternate then {"sbo-grid-row--alternate"} else {})
                          + (if r.selectable then {"sbo-grid-row--selectable"} else {}),
         map[RowIndexAttr := r.rowIndexAttr])
  }

  class GridDom {
    /** Every `.sbo-grid-header-cell` of the grid, in document order. */
    var headers: seq<HeaderNode>
    /** Every `.sbo-grid-row` of the grid, in document order. */
    var rows: seq<Elem>

    /** The grid as inserted into the page from a rendered view. */
    constructor Mount(view: GridView)
      ensures |headers| == |view.header| && |rows| == |view.rows|
      ensures forall k :: 0 <= k < |headers| ==> headers[k] == HeaderNodeFor(view.header[k])
      ensures forall k :: 0 <= k < |rows| ==> rows[k] == RowNodeFor(view.rows[k])
    {
      headers := seq(|view.header|, k requires 0 <= k < |view.header| => HeaderNodeFor(view.header[k]));
      rows := seq(|view.rows|, k requires 0 <= k < |view.rows| => RowNodeFor(view.rows[k]));
    }

    /** At most one header cell carries a data-sort attribute. */
    ghost predicate SortExclusive()
      reads this
    {
      forall j, l ::
        (0 <= j < |headers| && 0 <= l < |headers|
         && SortAttr in headers[j].cell.attrs && SortAttr in headers[l].cell.attrs) ==> j == l
    }

    /** Row j still carries the data-row-index the builder gave it. */
    ghost predicate RowIndexesIntact()
      reads this
    {
      forall j :: 0 <= j < |rows| ==> GetAttr(rows[j], RowIndexAttr) == Some(NatToDecimal(j))
    }

    /** handleGridSort(headerCell, columnId), headerCell being header k.
        Every header loses its data-sort and its icon direction; the clicked
        one then takes the next state of its own cycle, and a sort event
        carrying the column id and that direction is emitted. */
    method HandleGridSort(k: nat, columnId: string, log: EventLog)
      requires k < |headers|
      modifies this, log
      ensures |headers| == old(|headers|) && rows == old(rows)
      ensures headers[k] == MarkedHeader(ClearedHeader(old(headers[k])), NextSort(CurrentSort(old(headers[k]))))
      ensures forall j :: 0 <= j < |headers| && j != k ==> headers[j] == ClearedHeader(old(headers[j]))
      ensures GetAttr(headers[k].cell, SortAttr) == Some(NextSort(CurrentSort(old(headers[k]))))
      ensures forall j :: 0 <= j < |headers| && j != k ==> SortAttr !in headers[j].cell.attrs
      ensures SortExclusive()
      ensures log.events == old(log.events) + [GridSort(columnId, NextSort(CurrentSort(old(headers[k]))))]
      ensures log.alerts == old(log.alerts)
    {
      var currentSort := CurrentSort(headers[k]);
      var i := 0;
      while i < |headers|
        invariant 0 <= i <= |headers| == old(|headers|)
        invariant forall j :: 0 <= j < i ==> headers[j] == ClearedHeader(old(headers[j]))
        invariant forall j :: i <= j < |headers| ==> headers[j] == old(headers[j])
        invariant rows == old(rows) && unchanged(log)
      {
        headers := headers[i := ClearedHeader(headers[i])];
        i := i + 1;
      }
      var newSort := "asc";
      if currentSort == "asc" {
        newSort := "desc";
      } else if currentSort == "desc" {
        newSort := "none";
      }
      headers := headers[k := MarkedHeader(headers[k], newSort)];
      log.Dispatch(GridSort(columnId, newSort));
    }

    /** handleGridRowClick(row), row being body row k: afterwards exactly
        that row is selected, and the event carries the row's parsed
        data-row-index, which is k while the builder's attributes are
        intact. */
    method HandleGridRowClick(k: nat, log: EventLog)
      requires k < |rows|
      modifies this, log
      ensures headers == old(headers) && |rows| == old(|rows|)
      ensures forall j :: 0 <= j < |rows| ==> (HasClass(rows[j], SelectedRowClass) <==> j == k)
      ensures forall j :: 0 <= j < |rows| ==> rows[j].attrs == old(rows[j].attrs)
      ensures forall j :: 0 <= j < |rows| ==> rows[j].classes - {SelectedRowClass} == old(rows[j].classes) - {SelectedRowClass}
      ensures log.events == old(log.events) + [GridRowSelected(RowIndexOf(old(rows[k])))]
      ensures old(RowIndexesIntact()) ==> RowIndexesIntact() && log.events == old(log.events) + [GridRowSelected(Some(k))]
      ensures log.alerts == old(log.alerts)
    {
      rows := RemoveClassFromAll(rows, SelectedRowClass);
      rows := rows[k := AddClass(rows[k], SelectedRowClass)];
      var rowIndex := RowIndexOf(rows[k]);
      if old(RowIndexesIntact()) {
        ParseIntRoundTrip(k, "");
        assert IntToDecimal(k) + "" == NatToDecimal(k);
      }
      log.Dispatch(GridRowSelected(rowIndex));
    }
  }

  /** A grid mounted from a rendered view carries, on body row j, the index
      j: so a row click reports the position of the clicked row. */
  lemma MountedRowIndexes(options: GridOptions, host: Js.Host, j: nat)
    requires j < |options.data|
    ensures var rows := GridDataRows(options.data, options.columns, options.showRowNumbers,
                                     options.alternateRowColor, options.allowSelection, host);
      RowIndexOf(RowNodeFor(rows[j])) == Some(j)
  {
    ParseIntRoundTrip(j, "");
    assert IntToDecimal(j) + "" == NatToDecimal(j);
  }

  /** Three clicks on one header and then one on another: the first header
      goes asc, desc, none, and the second starts its own cycle at asc while
      the first loses its state. */
  method SortScenario(log: EventLog)
    modifies log
    ensures log.events == old(log.events) + [GridSort("code", "asc"), GridSort("code", "desc"),
                                             GridSort("code", "none"), GridSort("price", "asc")]
  {
    var view := GridView("g", {"sbo-grid"}, true, true,
                         [RowNumberHeader, ColumnHeader("code", "Kod", "auto", "string", true),
                          ColumnHeader("price", "Fiyat", "auto", "currency", true)], [], "");
    var grid := new GridDom.Mount(view);
    grid.HandleGridSort(1, "code", log);
    grid.HandleGridSort(1, "code", log);
    grid.HandleGridSort(1, "code", log);
    grid.HandleGridSort(2, "price", log);
    assert SortAttr !in grid.headers[1].cell.attrs;
  }
}
