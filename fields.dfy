// Two small builders shared by the field widgets: the colon suffix of a
// static-text caption, and the option list of a combo box.

module Fields {

  /** The caption text of createSBOStaticText: the caption followed by ':'
      unless it already ends with one. */
  function CaptionText(caption: string): (r: string)
  {
    if |caption| > 0 && caption[|caption| - 1] == ':' then caption else caption + ":"
  }

  /** The rendered caption always ends with exactly the caption and at most
      one added colon, and rendering it again changes nothing. */
  lemma CaptionTextProperties(caption: string)
    ensures var r := CaptionText(caption);
      |r| > 0 && r[|r| - 1] == ':'
      && r[..|caption|] == caption
      && (|r| == |caption| <==> |caption| > 0 && caption[|caption| - 1] == ':')
      && |r| <= |caption| + 1
      && CaptionText(r) == r
  {
    var r := CaptionText(caption);
    if !(|caption| > 0 && caption[|caption| - 1] == ':') {
      assert r[..|caption|] == caption;
    }
  }

  /** One entry of `values` / `validValues`; an absent text or description
      is written "". */
  datatype ComboItem = ComboItem(value: string, text: string, description: string)

  /** One <option>: its value, whether it carries the `selected` attribute,
      and its display text. */
  datatype OptionView = OptionView(value: string, selected: bool, text: string)

  /** `values.length > 0 ? values : validValues` */
  function ComboValues(values: seq<ComboItem>, validValues: seq<ComboItem>): seq<ComboItem>
  {
    if |values| > 0 then values else validValues
  }

  /** `item.text || item.description || item.value` */
  function DisplayText(item: ComboItem): string
  {
    if item.text != "" then item.text
    else if item.description != "" then item.description
    else item.value
  }

  function OptionFor(item: ComboItem, selectedValue: string): OptionView
  {
    OptionView(item.value, item.value == selectedValue, DisplayText(item))
  }

  /** The options generated for the items, in order. */
  function ItemOptions(items: seq<ComboItem>, selectedValue: string): seq<OptionView>
  {
    if items == [] then []
    else ItemOptions(items[..|items| - 1], selectedValue) + [OptionFor(items[|items| - 1], selectedValue)]
  }

  /** The whole option list: an empty first option when allowEmpty, then one
      option per item. */
  function ComboOptionList(values: seq<ComboItem>, validValues: seq<ComboItem>, selectedValue: string, allowEmpty: bool): seq<OptionView>
  {
    (if allowEmpty then [OptionView("", false, "")] else [])
    + ItemOptions(ComboValues(values, validValues), selectedValue)
  }

  /** The option-building loop of createSBOComboBox. */
  method BuildComboOptions(values: seq<ComboItem>, validValues: seq<ComboItem>, selectedValue: string, allowEmpty: bool)
    returns (options: seq<OptionView>)
    ensures options == ComboOptionList(values, validValues, selectedValue, allowEmpty)
  {
    var comboValues := if |values| > 0 then values else validValues;
    options := [];
    if allowEmpty {
      options := options + [OptionView("", false, "")];
    }
    var prefix := options;
    var i := 0;
    while i < |comboValues|
      invariant 0 <= i <= |comboValues|
      invariant options == prefix + ItemOptions(comboValues[..i], selectedValue)
    {
      var item := comboValues[i];
      var selected := item.value == selectedValue;
      var displayText := if item.text != "" then item.text else if item.description != "" then item.description else item.value;
      options := options + [OptionView(item.value, selected, displayText)];
      assert comboValues[..i + 1][..i] == comboValues[..i];
      i := i + 1;
    }
    assert comboValues[..i] == comboValues;
  }

  lemma {:induction false} ItemOptionsAt(items: seq<ComboItem>, selectedValue: string)
    ensures |ItemOptions(items, selectedValue)| == |items|
    ensures forall k :: 0 <= k < |items| ==> ItemOptions(items, selectedValue)[k] == OptionFor(items[k], selectedValue)
  {
    if items != [] {
      ItemOptionsAt(items[..|items| - 1], selectedValue);
    }
  }

  /** The option list has one entry per item, after the empty entry when
      allowEmpty; item k keeps its value, is selected exactly when its value
      is the selected value, and shows text, else description, else value. */
  lemma ComboOptionListShape(values: seq<ComboItem>, validValues: seq<ComboItem>, selectedValue: string, allowEmpty: bool)
    ensures var items := ComboValues(values, validValues);
      var opts := ComboOptionList(values, validValues, selectedValue, allowEmpty);
      var off := if allowEmpty then 1 else 0;
      && |opts| == |items| + off
      && (allowEmpty ==> opts[0] == OptionView("", false, ""))
      && (forall k :: 0 <= k < |items| ==>
            opts[k + off].value == items[k].value
            && (opts[k + off].selected <==> items[k].value == selectedValue)
            && opts[k + off].text == DisplayText(items[k]))
  {
    ItemOptionsAt(ComboValues(values, validValues), selectedValue);
  }

  /** The display text falls back from text to description to value, and is
      empty only when all three are. */
  lemma DisplayTextFallback(item: ComboItem)
    ensures DisplayText(item) in {item.text, item.description, item.value}
    ensures DisplayText(item) == "" <==> item.text == "" && item.description == "" && item.value == ""
  {
  }
}
