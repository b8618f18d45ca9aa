// How the grid turns one source value into the text and the alignment class
// of a body cell (formatGridCellValue and getGridCellAlignClass), and what
// the `row[column.id] || ''` read in front of them does to falsy values.

module GridFormat {
  import opened Text
  import opened Js

  const AlignRight := "sbo-grid-cell--right"
  const AlignCenter := "sbo-grid-cell--center"
  const AlignLeft := "sbo-grid-cell--left"

  /** The data types whose numbers are printed by the locale formatter and
      whose cells are right-aligned. */
  predicate IsNumericType(dataType: string)
  {
    dataType == "number" || dataType == "currency" || dataType == "percentage"
  }

  /** The values formatGridCellValue maps to '' before looking at the type. */
  predicate IsBlank(v: JsValue)
  {
    v == Null || v == Undefined || v == Str("")
  }

  /** formatGridCellValue(value, dataType). The result is either a string or
      the value itself, which the cell template then interpolates. An absent
      dataType is written "" (both fall to the default case). */
  function FormatGridCellValue(v: JsValue, dataType: string, host: Host): (r: JsValue)
    ensures IsBlank(v) ==> r == Str("")
    ensures r.Str? || r == v
  {
    if IsBlank(v) then Str("")
    else if dataType == "number" || dataType == "currency" then
      (if v.Num? then Str(host.localeNumber(v.n)) else v)
    else if dataType == "date" then
      (if v.Date? then Str(host.localeDate(v.time)) else v)
    else if dataType == "boolean" then
      Str(if Truthy(v) then "Evet" else "Hayır")
    else if dataType == "percentage" then
      (if v.Num? then Str(IntToDecimal(v.n) + "%") else v)
    else
      Str(Interpolate(v, host))
  }

  /** getGridCellAlignClass(dataType) */
  function GetGridCellAlignClass(dataType: string): string
  {
    if IsNumericType(dataType) then AlignRight
    else if dataType == "date" then AlignCenter
    else AlignLeft
  }

  /** The value a body cell reads for a column: `row[column.id] || ''`. */
  function CellSource(row: map<string, JsValue>, columnId: string): JsValue
  {
    OrEmpty(Prop(row, columnId))
  }

  /** The text shown in a body cell. */
  function CellText(row: map<string, JsValue>, columnId: string, dataType: string, host: Host): string
  {
    Interpolate(FormatGridCellValue(CellSource(row, columnId), dataType, host), host)
  }

  /** Every falsy source value (absent, null, '', 0, false) shows as the
      empty string, whatever the column's data type; in particular null and
      undefined never show as "null" or "undefined". */
  lemma FalsyCellIsEmpty(row: map<string, JsValue>, columnId: string, dataType: string, host: Host)
    requires !Truthy(Prop(row, columnId))
    ensures CellText(row, columnId, dataType, host) == ""
  {
  }

  /** In a boolean column a cell shows 'Evet' for a truthy value and '' for
      every other: the 'Hayır' branch of the formatter is unreachable from the
      grid, because `|| ''` has already turned false into ''. */
  lemma BooleanCellText(row: map<string, JsValue>, columnId: string, host: Host)
    ensures CellText(row, columnId, "boolean", host) == if Truthy(Prop(row, columnId)) then "Evet" else ""
    ensures CellText(row, columnId, "boolean", host) != "Hayır"
  {
  }

  /** The formatter itself does print 'Hayır' for false when called directly. */
  lemma FormatterFalseIsHayir(host: Host)
    ensures FormatGridCellValue(Bool(false), "boolean", host) == Str("Hayır")
  {
  }

  /** A non-zero number in a percentage column shows as its decimal text
      followed by '%', and parseInt reads the number back from that text. */
  lemma PercentageCellText(row: map<string, JsValue>, columnId: string, host: Host)
    requires Prop(row, columnId).Num? && Prop(row, columnId).n != 0
    ensures var t := CellText(row, columnId, "percentage", host);
      |t| > 0 && t[|t| - 1] == '%' && ParseInt(t) == Some(Prop(row, columnId).n)
  {
    var v := Prop(row, columnId);
    var n := v.n;
    assert CellSource(row, columnId) == v;
    var t := IntToDecimal(n) + "%";
    assert FormatGridCellValue(v, "percentage", host) == Str(t);
    assert CellText(row, columnId, "percentage", host) == t;
    ParseIntRoundTrip(n, "%");
  }

  /** A truthy value that is not a number passes through a number, currency
      or percentage column unchanged: the cell shows the value's own text. */
  lemma NumericTypePassesNonNumbers(row: map<string, JsValue>, columnId: string, dataType: string, host: Host)
    requires IsNumericType(dataType)
    requires Truthy(Prop(row, columnId)) && !Prop(row, columnId).Num?
    ensures CellText(row, columnId, dataType, host) == Interpolate(Prop(row, columnId), host)
  {
  }

  /** A non-zero number in a number or currency column is printed by the
      locale formatter. */
  lemma NumberCellText(row: map<string, JsValue>, columnId: string, dataType: string, host: Host)
    requires dataType == "number" || dataType == "currency"
    requires Prop(row, columnId).Num? && Prop(row, columnId).n != 0
    ensures CellText(row, columnId, dataType, host) == host.localeNumber(Prop(row, columnId).n)
  {
  }

  /** Alignment: right exactly for number, currency and percentage, center
      exactly for date, left for everything else (an absent type included). */
  lemma AlignmentByType(dataType: string)
    ensures GetGridCellAlignClass(dataType) == AlignRight <==> IsNumericType(dataType)
    ensures GetGridCellAlignClass(dataType) == AlignCenter <==> dataType == "date"
    ensures GetGridCellAlignClass(dataType) == AlignLeft <==> !IsNumericType(dataType) && dataType != "date"
  {
  }
}
