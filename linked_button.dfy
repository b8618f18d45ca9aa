// The linked (orange arrow) button: which action a click chooses from the
// linked input's value, and how updateLinkedButtonState keeps the
// auto-activating buttons of an input enabled exactly while it has a value.

module LinkedButton {
  import opened Text
  import opened Dom
  import opened Events

  const LinkToAttr := "data-link-to"
  const LinkedObjectAttr := "data-linked-object"
  const AutoActivateAttr := "data-auto-activate"
  const DisabledAttr := "disabled"
  const DisabledClass := "sbo-linked-button--disabled"

  /** An input of the page: its id and its current value. */
  datatype InputState = InputState(id: string, value: string)

  /** The action a click takes for the linked input's value: the record's
      form when the trimmed value is non-empty, Choose From List otherwise. */
  function ActionFor(inputValue: string): LinkAction
  {
    if Trim(inputValue) != "" then OpenForm else ChooseFromList
  }

  /** The form opens exactly when the value holds a character that is not
      white space. */
  lemma ActionForIff(inputValue: string)
    ensures ActionFor(inputValue) == OpenForm <==> exists i :: 0 <= i < |inputValue| && !IsJsSpace(inputValue[i])
  {
    TrimNonEmptyIff(inputValue);
  }

  /** `button.disabled` */
  predicate IsDisabled(b: Elem)
  {
    DisabledAttr in b.attrs
  }

  /** `button.getAttribute('data-auto-activate') === 'true'` */
  predicate AutoActivates(b: Elem)
  {
    GetAttr(b, AutoActivateAttr) == Some("true")
  }

  /** `[data-link-to="id"]` matches the button. */
  predicate LinksTo(b: Elem, id: string)
  {
    GetAttr(b, LinkToAttr) == Some(id)
  }

  /** `inputElement.value.trim().length > 0` */
  predicate HasValue(input: InputState)
  {
    |Trim(input.value)| > 0
  }

  /** An auto-activating button after the sync: disabled, and carrying the
      disabled class, exactly when the input has no value. */
  function Synced(b: Elem, hasValue: bool): Elem
  {
    if hasValue then Elem(b.classes - {DisabledClass}, b.attrs - {DisabledAttr})
    else Elem(b.classes + {DisabledClass}, b.attrs[DisabledAttr := ""])
  }

  /** `document.getElementById(id)` over the inputs of the page. */
  function FindInput(inputs: seq<InputState>, id: string): (r: Option<nat>)
    ensures r.Some? ==> r.value < |inputs| && inputs[r.value].id == id
    ensures r.Some? ==> forall j :: 0 <= j < r.value ==> inputs[j].id != id
    ensures r.None? ==> forall j :: 0 <= j < |inputs| ==> inputs[j].id != id
  {
    if inputs == [] then None
    else if inputs[0].id == id then Some(0)
    else match FindInput(inputs[1..], id)
      case None => None
      case Some(j) => Some(j + 1)
  }

  /** What a click on a button reports: nothing for a disabled button, a
      button without a link target or a target that is not on the page;
      otherwise the trimmed value, the linked object and the action. */
  function ClickEvent(b: Elem, inputs: seq<InputState>): Option<Event>
  {
    if IsDisabled(b) then None
    else match GetAttr(b, LinkToAttr)
      case None => None
      case Some(linkTo) =>
        if linkTo == "" then None
        else match FindInput(inputs, linkTo)
          case None => None
          case Some(k) =>
            var inputValue := Trim(inputs[k].value);
            Some(LinkedButtonClicked(inputValue, GetAttr(b, LinkedObjectAttr), ActionFor(inputs[k].value)))
  }

  /** A click that reports an event names the form action exactly when the
      reported value is non-empty, and that value carries no surrounding
      white space. */
  lemma ClickEventAction(b: Elem, inputs: seq<InputState>)
    requires ClickEvent(b, inputs).Some?
    ensures var e := ClickEvent(b, inputs).value;
      e.LinkedButtonClicked? && (e.action == OpenForm <==> e.inputValue != "")
      && (e.inputValue != "" ==> !IsJsSpace(e.inputValue[0]) && !IsJsSpace(e.inputValue[|e.inputValue| - 1]))
  {
    var linkTo := GetAttr(b, LinkToAttr).value;
    var k := FindInput(inputs, linkTo).value;
    var t := TrimStart(inputs[k].value);
    if TrimEnd(t) != "" {
      assert TrimEnd(t)[0] == t[0];
    }
  }

  class LinkedButtonPage {
    /** The inputs of the page. */
    var inputs: seq<InputState>
    /** Every element of the page that can carry data-link-to: the linked
        buttons (and the captions pointing at an input), in document order. */
    var buttons: seq<Elem>

    constructor (inputs0: seq<InputState>, buttons0: seq<Elem>)
      ensures inputs == inputs0 && buttons == buttons0
    {
      inputs, buttons := inputs0, buttons0;
    }

    /** Every auto-activating button linked to the input is enabled exactly
        when the input has a value, and carries the disabled class exactly
        when it is disabled. */
    ghost predicate InSync(input: InputState)
      reads this
    {
      forall j :: 0 <= j < |buttons| && LinksTo(buttons[j], input.id) && AutoActivates(buttons[j]) ==>
        (IsDisabled(buttons[j]) <==> !HasValue(input)) && (HasClass(buttons[j], DisabledClass) <==> !HasValue(input))
    }

    /** handleLinkedButtonClick(button), button being element b: the click
        changes nothing on the page and reports ClickEvent. */
    method HandleClick(b: nat, log: EventLog)
      requires b < |buttons|
      modifies log
      ensures ClickEvent(buttons[b], inputs).None? ==> log.events == old(log.events)
      ensures ClickEvent(buttons[b], inputs).Some? ==> log.events == old(log.events) + [ClickEvent(buttons[b], inputs).value]
      ensures log.alerts == old(log.alerts)
    {
      var button := buttons[b];
      if DisabledAttr in button.attrs {
        return;
      }
      var linkTo := GetAttr(button, LinkToAttr);
      var linkedObject := GetAttr(button, LinkedObjectAttr);
      if linkTo.None? || linkTo.value == "" {
        return;
      }
      var found := FindInput(inputs, linkTo.value);
      if found.None? {
        return;
      }
      var inputValue := Trim(inputs[found.value].value);
      var action := if inputValue != "" then OpenForm else ChooseFromList;
      log.Dispatch(LinkedButtonClicked(inputValue, linkedObject, action));
    }

    /** updateLinkedButtonState(inputElement): the auto-activating buttons
        linked to the input are synced with its value; every other element
        keeps its state. */
    method UpdateLinkedButtonState(input: InputState)
      modifies this
      ensures inputs == old(inputs) && |buttons| == old(|buttons|)
      ensures forall j :: 0 <= j < |buttons| ==> buttons[j] == SyncedFor(old(buttons[j]), input)
      ensures InSync(input)
    {
      var hasValue := |Trim(input.value)| > 0;
      SyncButtons(input.id, hasValue);
      forall j | 0 <= j < |buttons| && LinksTo(buttons[j], input.id) && AutoActivates(buttons[j])
        ensures (IsDisabled(buttons[j]) <==> !HasValue(input)) && (HasClass(buttons[j], DisabledClass) <==> !HasValue(input))
      {
        SyncedForInSync(old(buttons[j]), input);
      }
    }

    /** The loop of updateLinkedButtonState, for the input with this id and
        the outcome of its value test. */
    method SyncButtons(id: string, hasValue: bool)
      modifies this
      ensures inputs == old(inputs) && |buttons| == old(|buttons|)
      ensures forall j :: 0 <= j < |buttons| ==> buttons[j] == SyncedWith(old(buttons[j]), id, hasValue)
    {
      var bs := buttons;
      var i := 0;
      while i < |bs|
        invariant 0 <= i <= |bs| == |buttons|
        invariant forall j :: 0 <= j < i ==> bs[j] == SyncedWith(buttons[j], id, hasValue)
        invariant forall j :: i <= j < |bs| ==> bs[j] == buttons[j]
      {
        var button := bs[i];
        if LinksTo(button, id) && GetAttr(button, AutoActivateAttr) == Some("true") {
          // button.disabled = !hasValue, and the class follows it
          bs := bs[i := Synced(button, hasValue)];
        }
        i := i + 1;
      }
      buttons := bs;
    }
  }

  /** What the sync does to one element: an auto-activating button linked to
      the input is synced with its value, anything else is left alone. */
  function SyncedFor(b: Elem, input: InputState): Elem
  {
    SyncedWith(b, input.id, HasValue(input))
  }

  /** The sync of one element for the input with this id and this value
      test. */
  function SyncedWith(b: Elem, id: string, hasValue: bool): Elem
  {
    if LinksTo(b, id) && AutoActivates(b) then Synced(b, hasValue) else b
  }

  /** After the sync, an element that is an auto-activating button of the
      input is disabled, and carries the class, exactly when the input is
      blank. */
  lemma SyncedForInSync(b: Elem, input: InputState)
    requires LinksTo(SyncedFor(b, input), input.id) && AutoActivates(SyncedFor(b, input))
    ensures IsDisabled(SyncedFor(b, input)) <==> !HasValue(input)
    ensures HasClass(SyncedFor(b, input), DisabledClass) <==> !HasValue(input)
  {
    SyncedStable(b, HasValue(input));
  }

  /** Syncing keeps a button's link target, its linked object and its
      auto-activate flag, so the button stays in its input's set and a
      second sync with the same value changes nothing. */
  lemma SyncedStable(b: Elem, hasValue: bool)
    ensures GetAttr(Synced(b, hasValue), LinkToAttr) == GetAttr(b, LinkToAttr)
    ensures GetAttr(Synced(b, hasValue), LinkedObjectAttr) == GetAttr(b, LinkedObjectAttr)
    ensures AutoActivates(Synced(b, hasValue)) == AutoActivates(b)
    ensures Synced(Synced(b, hasValue), hasValue) == Synced(b, hasValue)
    ensures IsDisabled(Synced(b, hasValue)) <==> !hasValue
    ensures HasClass(Synced(b, hasValue), DisabledClass) <==> !hasValue
  {
  }

  /** After a sync, a click on an auto-activating button of the input that
      is reachable through its link reports an event exactly when the input
      has a value, and that event opens the form. */
  lemma SyncedClick(b: Elem, inputs: seq<InputState>, k: nat)
    requires k < |inputs| && FindInput(inputs, inputs[k].id) == Some(k) && inputs[k].id != ""
    requires LinksTo(b, inputs[k].id) && AutoActivates(b)
    ensures var e := ClickEvent(Synced(b, HasValue(inputs[k])), inputs);
      (e.Some? <==> HasValue(inputs[k])) && (e.Some? ==> e.value.action == OpenForm)
  {
  }

  /** createSBOLinkedButton: disabled, by attribute and class, as asked;
      linked to its input and naming its linked object when those are
      given; auto-activating when asked. */
  function CreateSBOLinkedButton(linkTo: string, linkedObject: string, isDisabled: bool, autoActivate: bool): (b: Elem)
    ensures IsDisabled(b) <==> isDisabled
    ensures HasClass(b, DisabledClass) <==> isDisabled
    ensures GetAttr(b, LinkToAttr) == (if linkTo != "" then Some(linkTo) else None)
    ensures GetAttr(b, LinkedObjectAttr) == (if linkedObject != "" then Some(linkedObject) else None)
    ensures AutoActivates(b) <==> autoActivate
  {
    var a0: map<string, string> := map[];
    var a1 := if isDisabled then a0[DisabledAttr := ""] else a0;
    var a2 := if linkTo != "" then a1[LinkToAttr := linkTo] else a1;
    var a3 := if linkedObject != "" then a2[LinkedObjectAttr := linkedObject] else a2;
    var a4 := if autoActivate then a3[AutoActivateAttr := "true"] else a3;
    Elem({"sbo-linked-button"} + (if isDisabled then {DisabledClass} else {}), a4)
  }

  /** The button of createLinkedEditTextCombo: created disabled, linked to
      the combo's input `<uniqueId>_input`, auto-activating. */
  function ComboButton(uniqueId: string, linkedObject: string): Elem
  {
    CreateSBOLinkedButton(uniqueId + "_input", linkedObject, true, true)
  }

  /** The combo's button once the user has typed `value` into its input, as
      written: createSBOEditText takes no onKeyup or onChange option, so the
      updateLinkedButtonState handlers the combo passes are dropped and
      typing changes nothing on the button. */
  function ComboButtonAfterTypingAsWritten(uniqueId: string, linkedObject: string, value: string): Elem
  {
    ComboButton(uniqueId, linkedObject)
  }

  /** The same, with the handlers wired as the combo intends: every edit
      runs updateLinkedButtonState for the input. */
  function ComboButtonAfterTyping(uniqueId: string, linkedObject: string, value: string): Elem
  {
    SyncedFor(ComboButton(uniqueId, linkedObject), InputState(uniqueId + "_input", value))
  }

  /** As written, the combo's button stays disabled whatever is typed, so a
      click on it never opens the linked form. */
  lemma ComboButtonStaysDisabled(uniqueId: string, linkedObject: string, value: string)
    ensures var b := ComboButtonAfterTypingAsWritten(uniqueId, linkedObject, value);
      IsDisabled(b) && HasClass(b, DisabledClass)
      && ClickEvent(b, [InputState(uniqueId + "_input", value)]).None?
  {
  }

  /** With the handlers wired, the combo's button is enabled exactly while
      its input holds a non-blank value, and a click then opens the linked
      form with the trimmed value. */
  lemma ComboButtonFollowsInput(uniqueId: string, linkedObject: string, value: string)
    ensures var b := ComboButtonAfterTyping(uniqueId, linkedObject, value);
      var input := InputState(uniqueId + "_input", value);
      && (IsDisabled(b) <==> !HasValue(input))
      && (HasClass(b, DisabledClass) <==> !HasValue(input))
      && (ClickEvent(b, [input]).Some? <==> HasValue(input))
      && (HasValue(input) ==>
            ClickEvent(b, [input]) == Some(LinkedButtonClicked(Trim(value), if linkedObject != "" then Some(linkedObject) else None, OpenForm)))
  {
    var b0 := ComboButton(uniqueId, linkedObject);
    var input := InputState(uniqueId + "_input", value);
    assert (uniqueId + "_input") != "";
    SyncedStable(b0, HasValue(input));
  }
}
