// The ButtonCombo: its rendered option list and hidden select, and the four
// handlers over the combos of a page — the main button, the dropdown toggle,
// the choice of an option and the page click that closes every dropdown.

module ButtonCombo {
  import opened Text
  import opened Dom
  import opened Events
  import opened Fields

  const OptionClass := "sbo-button-combo__option"
  const OptionSelectedClass := "sbo-button-combo__option--selected"
  const ValueAttr := "data-value"

  /** One <option> of the hidden select. */
  datatype SelectOption = SelectOption(value: string, text: string)

  /** One entry of the dropdown list. */
  datatype ComboEntryView = ComboEntryView(value: string, description: string, selected: bool)

  datatype ButtonComboView = ButtonComboView(
    id: string,
    classes: set<string>,
    caption: string,
    dataSource: Option<string>,
    entries: seq<ComboEntryView>,
    selectName: string,
    selectOptions: seq<SelectOption>,
    selectSelected: seq<bool>)

  /** createSBOButtonCombo: one dropdown entry and one hidden-select option
      per valid value, both marked where the value is the selected one; the
      select is named after the data source, else the combo's id. An absent
      dataSource is None and an absent description "". The data-source
      attribute is rendered only for a non-empty data source. */
  function CreateSBOButtonCombo(uniqueId: string, buttonCaption: string, validValues: seq<ComboItem>, selectedValue: string,
                                isDisabled: bool, dataSource: Option<string>): (v: ButtonComboView)
    ensures |v.entries| == |validValues| && |v.selectOptions| == |validValues| && |v.selectSelected| == |validValues|
    ensures forall k :: 0 <= k < |validValues| ==>
      v.entries[k] == ComboEntryView(validValues[k].value, validValues[k].description, validValues[k].value == selectedValue)
      && v.selectOptions[k] == SelectOption(validValues[k].value, validValues[k].description)
      && (v.selectSelected[k] <==> validValues[k].value == selectedValue)
    ensures v.selectName == (if dataSource.Some? && dataSource.value != "" then dataSource.value else uniqueId)
    ensures v.dataSource == (if dataSource.Some? && dataSource.value != "" then dataSource else None)
    ensures v.dataSource.Some? ==> v.dataSource.value != ""
  {
    ButtonComboView(uniqueId,
                    {"sbo-button-combo"} + (if isDisabled then {"sbo-button-combo--disabled"} else {}),
                    buttonCaption,
                    if dataSource.Some? && dataSource.value != "" then dataSource else None,
                    seq(|validValues|, k requires 0 <= k < |validValues| =>
                      ComboEntryView(validValues[k].value, validValues[k].description, validValues[k].value == selectedValue)),
                    if dataSource.Some? && dataSource.value != "" then dataSource.value else uniqueId,
                    seq(|validValues|, k requires 0 <= k < |validValues| =>
                      SelectOption(validValues[k].value, validValues[k].description)),
                    seq(|validValues|, k requires 0 <= k < |validValues| => validValues[k].value == selectedValue))
  }

  /** The index a single-choice select starts with: the last option carrying
      the `selected` attribute, else the first option, else -1. */
  function InitialSelectedIndex(selected: seq<bool>): (r: int)
    ensures -1 <= r < |selected|
    ensures r == -1 <==> |selected| == 0
    ensures (exists j :: 0 <= j < |selected| && selected[j]) ==> 0 <= r && selected[r] && forall j :: r < j < |selected| ==> !selected[j]
    ensures (forall j :: 0 <= j < |selected| ==> !selected[j]) ==> r == (if |selected| == 0 then -1 else 0)
  {
    if |selected| == 0 then -1
    else if selected[|selected| - 1] then |selected| - 1
    else
      var r := InitialSelectedIndex(selected[..|selected| - 1]);
      assert forall j :: 0 <= j < |selected| - 1 ==> selected[..|selected| - 1][j] == selected[j];
      if r == -1 then 0 else r
  }

  /** `select.value = v`: the first option with that value becomes the
      selected one, and none (-1) when no option has it. */
  function IndexOfValue(opts: seq<SelectOption>, v: string): (r: int)
    ensures -1 <= r < |opts|
    ensures r >= 0 ==> opts[r].value == v && forall j :: 0 <= j < r ==> opts[j].value != v
    ensures r == -1 ==> forall j :: 0 <= j < |opts| ==> opts[j].value != v
  {
    if opts == [] then -1
    else if opts[0].value == v then 0
    else
      var r := IndexOfValue(opts[1..], v);
      if r == -1 then -1 else r + 1
  }

  /** `select.value`: the selected option's value, or "" when none is. */
  function SelectValue(opts: seq<SelectOption>, index: int): string
  {
    if 0 <= index < |opts| then opts[index].value else ""
  }

  /** `select.options[select.selectedIndex]?.text || ''` */
  function SelectText(opts: seq<SelectOption>, index: int): string
  {
    if 0 <= index < |opts| then opts[index].text else ""
  }

  /** Setting the select's value and reading it back gives the value when
      an option carries it, and "" otherwise; the text read is that of the
      first option carrying it. */
  lemma SelectValueRoundTrip(opts: seq<SelectOption>, v: string)
    ensures SelectValue(opts, IndexOfValue(opts, v)) == (if exists j :: 0 <= j < |opts| && opts[j].value == v then v else "")
    ensures forall j :: 0 <= j < |opts| && opts[j].value == v && (forall l :: 0 <= l < j ==> opts[l].value != v) ==>
      SelectText(opts, IndexOfValue(opts, v)) == opts[j].text
  {
    var r := IndexOfValue(opts, v);
    forall j | 0 <= j < |opts| && opts[j].value == v && (forall l :: 0 <= l < j ==> opts[l].value != v)
      ensures r == j
    {
    }
  }

  /** A combo in the page: its id, its data-source attribute, whether its
      dropdown is shown, its dropdown entries, its hidden select and the
      select's selected index. */
  datatype ComboState = ComboState(
    id: string,
    dataSource: Option<string>,
    open: bool,
    entries: seq<Elem>,
    select: seq<SelectOption>,
    selectedIndex: int)

  function EntryElem(e: ComboEntryView): Elem
  {
    Elem({OptionClass} + (if e.selected then {OptionSelectedClass} else {}), map[ValueAttr := e.value])
  }

  function MountCombo(v: ButtonComboView): ComboState
  {
    ComboState(v.id, v.dataSource, false,
               seq(|v.entries|, k requires 0 <= k < |v.entries| => EntryElem(v.entries[k])),
               v.selectOptions, InitialSelectedIndex(v.selectSelected))
  }

  /** `document.getElementById(id)` over the combos of the page. */
  function FindCombo(cs: seq<ComboState>, id: string): (r: Option<nat>)
    ensures r.Some? ==> r.value < |cs| && cs[r.value].id == id
    ensures r.Some? ==> forall j :: 0 <= j < r.value ==> cs[j].id != id
    ensures r.None? ==> forall j :: 0 <= j < |cs| ==> cs[j].id != id
  {
    if cs == [] then None
    else if cs[0].id == id then Some(0)
    else match FindCombo(cs[1..], id)
      case None => None
      case Some(j) => Some(j + 1)
  }

  /** The entries after a choice of value v: only the first entry whose
      data-value is v keeps the selected mark. */
  function MarkChoice(entries: seq<Elem>, v: string): seq<Elem>
  {
    var target := FirstWithAttr(entries, ValueAttr, v);
    seq(|entries|, j requires 0 <= j < |entries| =>
      if target == Some(j) then AddClass(entries[j], OptionSelectedClass) else RemoveClass(entries[j], OptionSelectedClass))
  }

  /** The dropdown entries carry at most one selected mark after a choice,
      on an entry carrying the chosen value. */
  lemma MarkChoiceSelectsOne(entries: seq<Elem>, v: string)
    ensures var es := MarkChoice(entries, v);
      |es| == |entries|
      && (forall j, l :: 0 <= j < |es| && 0 <= l < |es| && HasClass(es[j], OptionSelectedClass) && HasClass(es[l], OptionSelectedClass) ==> j == l)
      && (forall j :: 0 <= j < |es| && HasClass(es[j], OptionSelectedClass) ==> GetAttr(entries[j], ValueAttr) == Some(v))
      && ((exists j :: 0 <= j < |entries| && GetAttr(entries[j], ValueAttr) == Some(v)) ==>
            exists j :: 0 <= j < |es| && HasClass(es[j], OptionSelectedClass))
  {
    var es := MarkChoice(entries, v);
    var target := FirstWithAttr(entries, ValueAttr, v);
    if exists j :: 0 <= j < |entries| && GetAttr(entries[j], ValueAttr) == Some(v) {
      assert target.Some?;
      assert HasClass(es[target.value], OptionSelectedClass);
    }
  }

  class ComboPage {
    /** The combos of the page, in document order. */
    var combos: seq<ComboState>

    constructor Mount(views: seq<ButtonComboView>)
      ensures combos == seq(|views|, k requires 0 <= k < |views| => MountCombo(views[k]))
    {
      combos := seq(|views|, k requires 0 <= k < |views| => MountCombo(views[k]));
    }

    /** At most one dropdown of the page is shown. */
    ghost predicate AtMostOneOpen()
      reads this
    {
      forall j, l :: 0 <= j < |combos| && 0 <= l < |combos| && combos[j].open && combos[l].open ==> j == l
    }

    /** handleButtonComboMainClick(uniqueId): the event carries the hidden
        select's value and the text of its selected option. A missing combo
        throws before anything happens. */
    method HandleMainClick(uniqueId: string, log: EventLog)
      modifies log
      ensures FindCombo(combos, uniqueId).None? ==> log.events == old(log.events)
      ensures FindCombo(combos, uniqueId).Some? ==>
        var c := combos[FindCombo(combos, uniqueId).value];
        log.events == old(log.events) + [ButtonComboMainClicked(uniqueId, SelectValue(c.select, c.selectedIndex), SelectText(c.select, c.selectedIndex))]
      ensures log.alerts == old(log.alerts)
    {
      var found := FindCombo(combos, uniqueId);
      if found.None? {
        return;
      }
      var c := combos[found.value];
      var selectedValue := if 0 <= c.selectedIndex < |c.select| then c.select[c.selectedIndex].value else "";
      var selectedText := if 0 <= c.selectedIndex < |c.select| then c.select[c.selectedIndex].text else "";
      log.Dispatch(ButtonComboMainClicked(uniqueId, selectedValue, selectedText));
    }

    /** toggleButtonComboDropdown(uniqueId): every other shown dropdown is
        closed and this one flips; afterwards at most one is shown. */
    method Toggle(uniqueId: string)
      modifies this
      ensures FindCombo(old(combos), uniqueId).None? ==> combos == old(combos)
      ensures FindCombo(old(combos), uniqueId).Some? ==>
        var k := FindCombo(old(combos), uniqueId).value;
        && |combos| == old(|combos|)
        && combos[k] == old(combos[k]).(open := !old(combos[k].open))
        && (forall j :: 0 <= j < |combos| && j != k ==> combos[j] == old(combos[j]).(open := false))
        && AtMostOneOpen()
    {
      var found := FindCombo(combos, uniqueId);
      if found.None? {
        return;
      }
      var k := found.value;
      var i := 0;
      while i < |combos|
        invariant 0 <= i <= |combos| == old(|combos|)
        invariant forall j :: 0 <= j < i && j != k ==> combos[j] == old(combos[j]).(open := false)
        invariant forall j :: i <= j < |combos| || j == k ==> 0 <= j < |combos| ==> combos[j] == old(combos[j])
      {
        if i != k && combos[i].open {
          combos := combos[i := combos[i].(open := false)];
        }
        i := i + 1;
      }
      combos := combos[k := combos[k].(open := !combos[k].open)];
    }

    /** selectButtonComboOption(uniqueId, value, description): the entry
        carrying the value becomes the one marked, the hidden select takes the
        value, the dropdown closes and the event carries the id, value,
        description and data source. A missing combo throws before anything
        happens. */
    method SelectOption(uniqueId: string, value: string, description: string, log: EventLog)
      modifies this, log
      ensures FindCombo(old(combos), uniqueId).None? ==> combos == old(combos) && log.events == old(log.events)
      ensures FindCombo(old(combos), uniqueId).Some? ==>
        var k := FindCombo(old(combos), uniqueId).value;
        && combos == old(combos)[k := old(combos[k]).(open := false,
                                                      entries := MarkChoice(old(combos[k].entries), value),
                                                      selectedIndex := IndexOfValue(old(combos[k].select), value))]
        && log.events == old(log.events) + [ButtonComboSelectionChanged(uniqueId, value, description, old(combos[k].dataSource))]
      ensures old(AtMostOneOpen()) ==> AtMostOneOpen()
      ensures log.alerts == old(log.alerts)
    {
      var found := FindCombo(combos, uniqueId);
      if found.None? {
        return;
      }
      var k := found.value;
      var entries := RemoveClassFromAll(combos[k].entries, OptionSelectedClass);
      var target := FirstWithAttr(entries, ValueAttr, value);
      assert forall j :: 0 <= j < |entries| ==> GetAttr(entries[j], ValueAttr) == GetAttr(combos[k].entries[j], ValueAttr);
      assert target == FirstWithAttr(combos[k].entries, ValueAttr, value) by {
        FirstWithAttrSameAttrs(entries, combos[k].entries, ValueAttr, value);
      }
      if target.Some? {
        entries := entries[target.value := AddClass(entries[target.value], OptionSelectedClass)];
      }
      assert forall j :: 0 <= j < |entries| ==> entries[j] == MarkChoice(combos[k].entries, value)[j];
      assert entries == MarkChoice(combos[k].entries, value);
      var index := IndexOfValue(combos[k].select, value);
      combos := combos[k := combos[k].(open := false, entries := entries, selectedIndex := index)];
      log.Dispatch(ButtonComboSelectionChanged(uniqueId, value, description, combos[k].dataSource));
    }

    /** The page's click listener: a click outside every combo closes every
        dropdown; a click inside one changes nothing. */
    method DocumentClick(insideCombo: bool)
      modifies this
      ensures insideCombo ==> combos == old(combos)
      ensures !insideCombo ==>
        |combos| == old(|combos|) && forall j :: 0 <= j < |combos| ==> combos[j] == old(combos[j]).(open := false)
    {
      if insideCombo {
        return;
      }
      var i := 0;
      while i < |combos|
        invariant 0 <= i <= |combos| == old(|combos|)
        invariant forall j :: 0 <= j < i ==> combos[j] == old(combos[j]).(open := false)
        invariant forall j :: i <= j < |combos| ==> combos[j] == old(combos[j])
      {
        if combos[i].open {
          combos := combos[i := combos[i].(open := false)];
        }
        i := i + 1;
      }
    }
  }

  /** A combo rendered with a selected value that one of its valid values
      carries reports that value from the main button before any choice. */
  lemma MountedReportsSelectedValue(uniqueId: string, validValues: seq<ComboItem>, selectedValue: string, dataSource: Option<string>)
    requires exists j :: 0 <= j < |validValues| && validValues[j].value == selectedValue
    ensures var c := MountCombo(CreateSBOButtonCombo(uniqueId, "Eylem", validValues, selectedValue, false, dataSource));
      SelectValue(c.select, c.selectedIndex) == selectedValue
  {
    var v := CreateSBOButtonCombo(uniqueId, "Eylem", validValues, selectedValue, false, dataSource);
    var j :| 0 <= j < |validValues| && validValues[j].value == selectedValue;
    assert v.selectSelected[j];
  }

  /** The data source a mounted combo reports with a choice is the one it
      was rendered with when that is non-empty, and null otherwise: an empty
      data source renders no data-source attribute. */
  lemma MountedDataSource(uniqueId: string, validValues: seq<ComboItem>, selectedValue: string, dataSource: Option<string>)
    ensures var c := MountCombo(CreateSBOButtonCombo(uniqueId, "Eylem", validValues, selectedValue, false, dataSource));
      (c.dataSource.Some? <==> dataSource.Some? && dataSource.value != "")
      && (c.dataSource.Some? ==> c.dataSource == dataSource)
  {
  }

  /** Choosing an option and then pressing the main button reports the
      chosen value and the description of the first option carrying it. */
  method ChooseThenPress(uniqueId: string, validValues: seq<ComboItem>, j: nat, log: EventLog)
    requires j < |validValues|
    requires forall l :: 0 <= l < j ==> validValues[l].value != validValues[j].value
    modifies log
    ensures log.events == old(log.events) + [
      ButtonComboSelectionChanged(uniqueId, validValues[j].value, validValues[j].description, None),
      ButtonComboMainClicked(uniqueId, validValues[j].value, validValues[j].description)]
  {
    var view := CreateSBOButtonCombo(uniqueId, "Eylem", validValues, "", false, None);
    assert view.dataSource == None;
    var page := new ComboPage.Mount([view]);
    assert FindCombo(page.combos, uniqueId) == Some(0);
    page.SelectOption(uniqueId, validValues[j].value, validValues[j].description, log);
    SelectValueRoundTrip(page.combos[0].select, validValues[j].value);
    assert page.combos[0].select[j] == SelectOption(validValues[j].value, validValues[j].description);
    page.HandleMainClick(uniqueId, log);
  }
}
