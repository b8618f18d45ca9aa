// The layout editor SBOEditMode: switching the editing mode on and off,
// selecting one component at a time, moving it with the arrow keys, and
// resetting every position.

module EditMode {
  import opened Text
  import opened Events

  const EditableClass := "sbo-editable"
  const SelectedClass := "sbo-selected"
  const ShiftStep := 10
  const ResetNotice := "✅ Tüm konumlar sıfırlandı!"

  /** An inline `style.left` or `style.top` as the editor leaves it: unset
      (the empty string) or a whole number of pixels. */
  datatype Style = Unset | Px(n: int)

  /** The style's text: "" or `${n}px`. */
  function StyleText(s: Style): string
  {
    match s
    case Unset => ""
    case Px(n) => IntToDecimal(n) + "px"
  }

  /** A component of the page as the editor sees it: its id ("" when it has
      none), its classes, whether it matches one of the editor's component
      selectors, whether a click listener has been attached to it, and its
      inline left and top styles. The editor's own panel and its buttons
      are not among these. */
  datatype Component = Component(id: string, classes: set<string>, matchesSelector: bool, listening: bool, left: Style, top: Style)

  /** A stored position. */
  datatype Offset = Offset(left: int, top: int)

  /** `parseInt(style) || 0` */
  function ParsedOffset(s: Style): int
  {
    match s
    case Unset => 0
    case Px(n) => n
  }

  /** ParsedOffset is `parseInt` of the style's text, with NaN read as 0:
      an unset style reads as 0 and `${n}px` reads back as n. */
  lemma ParsedOffsetReadsText(s: Style)
    ensures ParsedOffset(s) == match ParseInt(StyleText(s)) case None => 0 case Some(n) => n
  {
    match s
    case Unset =>
      assert LeadingDigits(SignRest(TrimStart(""))) == 0;
    case Px(n) =>
      ParseIntRoundTrip(n, "px");
  }

  /** The position indicator's text, `X: ${left}px, Y: ${top}px`. */
  function IndicatorText(o: Offset): string
  {
    "X: " + IntToDecimal(o.left) + "px, Y: " + IntToDecimal(o.top) + "px"
  }

  /** The component is made editable on activation: it matches a selector
      and its id does not start with "btn". */
  predicate Eligible(c: Component)
  {
    c.matchesSelector && !(|c.id| >= 3 && c.id[..3] == "btn")
  }

  predicate IsArrow(key: string)
  {
    key == "ArrowUp" || key == "ArrowDown" || key == "ArrowLeft" || key == "ArrowRight"
  }

  /** `e.shiftKey ? 10 : this.gridSize` */
  function StepFor(shiftKey: bool, gridSize: int): int
  {
    if shiftKey then ShiftStep else gridSize
  }

  /** The offsets after a move in `direction`; any other key leaves them. */
  function Moved(current: Offset, direction: string, step: int): Offset
  {
    match direction
    case "ArrowLeft" => current.(left := current.left - step)
    case "ArrowRight" => current.(left := current.left + step)
    case "ArrowUp" => current.(top := current.top - step)
    case "ArrowDown" => current.(top := current.top + step)
    case _ => current
  }

  /** Left and Right move the horizontal offset by the step, Up and Down
      the vertical one, and any other key moves nothing. */
  lemma MovedDirections(current: Offset, direction: string, step: int)
    ensures direction == "ArrowLeft" ==> Moved(current, direction, step) == Offset(current.left - step, current.top)
    ensures direction == "ArrowRight" ==> Moved(current, direction, step) == Offset(current.left + step, current.top)
    ensures direction == "ArrowUp" ==> Moved(current, direction, step) == Offset(current.left, current.top - step)
    ensures direction == "ArrowDown" ==> Moved(current, direction, step) == Offset(current.left, current.top + step)
    ensures !IsArrow(direction) ==> Moved(current, direction, step) == current
  {
  }

  /** Opposite moves cancel: Left after Right and Up after Down return to
      the start, and a horizontal move never changes the vertical offset nor
      a vertical one the horizontal offset. */
  lemma MovedOpposites(current: Offset, step: int)
    ensures Moved(Moved(current, "ArrowRight", step), "ArrowLeft", step) == current
    ensures Moved(Moved(current, "ArrowDown", step), "ArrowUp", step) == current
    ensures forall d :: d in {"ArrowLeft", "ArrowRight"} ==> Moved(current, d, step).top == current.top
    ensures forall d :: d in {"ArrowUp", "ArrowDown"} ==> Moved(current, d, step).left == current.left
  {
  }

  /** The offsets a component is shown at. */
  function CurrentOffset(c: Component): Offset
  {
    Offset(ParsedOffset(c.left), ParsedOffset(c.top))
  }

  /** A component after makeElementsEditable. */
  function MadeEditable(c: Component): Component
  {
    if Eligible(c) then c.(classes := c.classes + {EditableClass}, listening := true) else c
  }

  /** A component after removeEditableHandlers: an editable one loses the
      editable and selected classes and its offsets; its listener stays. */
  function Unedited(c: Component): Component
  {
    if EditableClass in c.classes then c.(classes := c.classes - {EditableClass, SelectedClass}, left := Unset, top := Unset) else c
  }

  /** A component after resetPositions: an editable one loses its offsets. */
  function PositionReset(c: Component): Component
  {
    if EditableClass in c.classes then c.(left := Unset, top := Unset) else c
  }

  /** A component with the selected class taken off / put on. */
  function Unmarked(c: Component): Component
  {
    c.(classes := c.classes - {SelectedClass})
  }

  function Marked(c: Component): Component
  {
    c.(classes := c.classes + {SelectedClass})
  }

  /** The components after deselectElement with selection `sel`. */
  function Deselected(cs: seq<Component>, sel: Option<nat>): seq<Component>
    requires sel.Some? ==> sel.value < |cs|
  {
    if sel.Some? then cs[sel.value := Unmarked(cs[sel.value])] else cs
  }

  /** The components after selectElement(k) with selection `sel`. */
  function Selected(cs: seq<Component>, sel: Option<nat>, k: nat): seq<Component>
    requires k < |cs| && (sel.Some? ==> sel.value < |cs|)
  {
    var d := Deselected(cs, sel);
    d[k := Marked(d[k])]
  }

  /** The selection invariant on the components: at most one carries the
      selected class, and it is the one `sel` names. */
  predicate SelectionValid(cs: seq<Component>, sel: Option<nat>)
  {
    (sel.Some? ==> sel.value < |cs|)
    && forall j :: 0 <= j < |cs| ==> (SelectedClass in cs[j].classes <==> sel == Some(j))
  }

  /** Deselecting a valid selection leaves no component marked. */
  lemma DeselectedClears(cs: seq<Component>, sel: Option<nat>)
    requires SelectionValid(cs, sel)
    ensures SelectionValid(Deselected(cs, sel), None)
    ensures |Deselected(cs, sel)| == |cs|
  {
  }

  /** Selecting k from a valid selection leaves exactly k marked, and
      changes nothing about any component but the selected class. */
  lemma SelectedMarksOne(cs: seq<Component>, sel: Option<nat>, k: nat)
    requires k < |cs| && SelectionValid(cs, sel)
    ensures SelectionValid(Selected(cs, sel, k), Some(k))
    ensures |Selected(cs, sel, k)| == |cs|
    ensures forall j :: 0 <= j < |cs| ==> Unmarked(Selected(cs, sel, k)[j]) == Unmarked(cs[j])
  {
    var d := Deselected(cs, sel);
    DeselectedClears(cs, sel);
    forall j | 0 <= j < |cs|
      ensures Unmarked(Selected(cs, sel, k)[j]) == Unmarked(cs[j])
    {
      assert Unmarked(d[j]) == Unmarked(cs[j]) by {
        assert d[j].classes - {SelectedClass} == cs[j].classes - {SelectedClass};
      }
      if j == k {
        assert Marked(d[k]).classes - {SelectedClass} == d[k].classes - {SelectedClass};
      }
    }
  }

  /** An update that keeps which components carry the selected class keeps
      the selection valid. */
  lemma SameMarksKeepValid(cs: seq<Component>, cs2: seq<Component>, sel: Option<nat>)
    requires SelectionValid(cs, sel) && |cs2| == |cs|
    requires forall j :: 0 <= j < |cs| ==> (SelectedClass in cs2[j].classes <==> SelectedClass in cs[j].classes)
    ensures SelectionValid(cs2, sel)
  {
  }

  /** A component after moveElement: both offsets written as pixel styles,
      and an id supplied when it had none. */
  function MovedComponent(c: Component, direction: string, step: int, freshSuffix: string): Component
  {
    var moved := Moved(CurrentOffset(c), direction, step);
    c.(id := MoveKey(c, freshSuffix), left := Px(moved.left), top := Px(moved.top))
  }

  /** `el.id || this.generateElementId(el)`, the generated id being
      `editable_` followed by the supplied suffix. */
  function MoveKey(c: Component, freshSuffix: string): (r: string)
    ensures r != ""
  {
    if c.id != "" then c.id else "editable_" + freshSuffix
  }

  /** A move stores under the component's id exactly the offsets it then
      shows, and the written style texts parse back to them. */
  lemma MovedShowsStored(c: Component, direction: string, step: int, freshSuffix: string)
    ensures var m := MovedComponent(c, direction, step, freshSuffix);
      var moved := Moved(CurrentOffset(c), direction, step);
      && CurrentOffset(m) == moved
      && ParseInt(StyleText(m.left)) == Some(moved.left)
      && ParseInt(StyleText(m.top)) == Some(moved.top)
      && m.id == MoveKey(c, freshSuffix) && m.classes == c.classes
  {
    var moved := Moved(CurrentOffset(c), direction, step);
    ParseIntRoundTrip(moved.left, "px");
    ParseIntRoundTrip(moved.top, "px");
  }

  /** Two moves in opposite directions by the same step bring a component
      back to the offsets it showed, whatever its styles held before. */
  lemma MoveThereAndBack(c: Component, step: int, freshSuffix: string)
    ensures CurrentOffset(MovedComponent(MovedComponent(c, "ArrowRight", step, freshSuffix), "ArrowLeft", step, freshSuffix)) == CurrentOffset(c)
    ensures CurrentOffset(MovedComponent(MovedComponent(c, "ArrowDown", step, freshSuffix), "ArrowUp", step, freshSuffix)) == CurrentOffset(c)
  {
    MovedShowsStored(c, "ArrowRight", step, freshSuffix);
    MovedShowsStored(MovedComponent(c, "ArrowRight", step, freshSuffix), "ArrowLeft", step, freshSuffix);
    MovedShowsStored(c, "ArrowDown", step, freshSuffix);
    MovedShowsStored(MovedComponent(c, "ArrowDown", step, freshSuffix), "ArrowUp", step, freshSuffix);
    MovedOpposites(CurrentOffset(c), step);
  }

  class SBOEditMode {
    var isActive: bool
    /** The selected component's position in `components`, None for null. */
    var selectedElement: Option<nat>
    /** The move step without Shift, in pixels. */
    var gridSize: int
    /** The stored position of every component moved so far, by id. */
    var positionData: map<string, Offset>
    /** Whether the body carries `sbo-edit-mode-active`. */
    var bodyActive: bool
    /** Whether the editor's control panel is in the page. */
    var panelShown: bool
    /** The position indicator and its text, when one is shown. */
    var indicator: Option<string>
    /** The components of the page, in document order. */
    var components: seq<Component>

    /** The editor as declared: inactive, nothing selected, a one-pixel
        grid and no stored position. */
    constructor (components0: seq<Component>)
      ensures !isActive && selectedElement == None && gridSize == 1 && positionData == map[]
      ensures !bodyActive && !panelShown && indicator == None && components == components0
      ensures (forall j :: 0 <= j < |components0| ==> SelectedClass !in components0[j].classes) ==> Valid()
    {
      isActive, selectedElement, gridSize, positionData := false, None, 1, map[];
      bodyActive, panelShown, indicator, components := false, false, None, components0;
    }

    /** The selection invariant, and an indicator only for a selection. */
    ghost predicate Valid()
      reads this
    {
      SelectionValid(components, selectedElement) && (indicator.Some? ==> selectedElement.Some?)
    }

    /** deselectElement: the selected component, if any, loses the selected
        class and the indicator goes; afterwards nothing is selected. */
    method DeselectElement()
      requires selectedElement.Some? ==> selectedElement.value < |components|
      modifies this
      ensures selectedElement == None
      ensures components == Deselected(old(components), old(selectedElement))
      ensures indicator == if old(selectedElement).Some? then None else old(indicator)
      ensures isActive == old(isActive) && gridSize == old(gridSize) && positionData == old(positionData)
      ensures bodyActive == old(bodyActive) && panelShown == old(panelShown)
    {
      if selectedElement.Some? {
        var k := selectedElement.value;
        components := components[k := components[k].(classes := components[k].classes - {SelectedClass})];
        indicator := None;
        selectedElement := None;
      }
    }

    /** selectElement(element), element being component k: the previous
        selection is dropped, k becomes the selected component, and the
        indicator shows its offsets. */
    method SelectElement(k: nat)
      requires k < |components| && (selectedElement.Some? ==> selectedElement.value < |components|)
      modifies this
      ensures selectedElement == Some(k)
      ensures components == Selected(old(components), old(selectedElement), k)
      ensures indicator == Some(IndicatorText(CurrentOffset(components[k])))
      ensures isActive == old(isActive) && gridSize == old(gridSize) && positionData == old(positionData)
      ensures bodyActive == old(bodyActive) && panelShown == old(panelShown)
      ensures old(Valid()) ==> Valid()
    {
      ghost var wasValid := Valid();
      DeselectElement();
      selectedElement := Some(k);
      var el := components[k].(classes := components[k].classes + {SelectedClass});
      components := components[k := el];
      // showPositionIndicator: drop any indicator, append a new one, fill it in
      indicator := None;
      indicator := Some(IndicatorText(CurrentOffset(el)));
      if wasValid {
        SelectedMarksOne(old(components), old(selectedElement), k);
      }
    }

    /** handleElementClick for a click on component k: only a component
        carrying the listener reacts, and only while the mode is active. */
    method HandleElementClick(k: nat)
      requires k < |components| && (selectedElement.Some? ==> selectedElement.value < |components|)
      modifies this
      ensures !(old(components[k].listening) && old(isActive)) ==>
        components == old(components) && selectedElement == old(selectedElement) && indicator == old(indicator)
      ensures old(components[k].listening) && old(isActive) ==>
        selectedElement == Some(k) && components == Selected(old(components), old(selectedElement), k)
        && indicator == Some(IndicatorText(CurrentOffset(components[k])))
      ensures isActive == old(isActive) && positionData == old(positionData) && gridSize == old(gridSize)
      ensures bodyActive == old(bodyActive) && panelShown == old(panelShown)
      ensures old(Valid()) ==> Valid()
    {
      if !components[k].listening || !isActive {
        return;
      }
      SelectElement(k);
    }

    /** activate: the body is marked, the panel appears and every eligible
        component becomes editable and listens for clicks. */
    method Activate()
      modifies this
      ensures bodyActive && panelShown
      ensures |components| == old(|components|)
      ensures forall j :: 0 <= j < |components| ==> components[j] == MadeEditable(old(components[j]))
      ensures isActive == old(isActive) && selectedElement == old(selectedElement) && indicator == old(indicator)
      ensures gridSize == old(gridSize) && positionData == old(positionData)
      ensures old(Valid()) ==> Valid()
    {
      ghost var wasValid := Valid();
      bodyActive := true;
      panelShown := true;
      var i := 0;
      while i < |components|
        invariant 0 <= i <= |components| == old(|components|)
        invariant forall j :: 0 <= j < i ==> components[j] == MadeEditable(old(components[j]))
        invariant forall j :: i <= j < |components| ==> components[j] == old(components[j])
        invariant bodyActive && panelShown
        invariant isActive == old(isActive) && selectedElement == old(selectedElement) && indicator == old(indicator)
        invariant gridSize == old(gridSize) && positionData == old(positionData)
      {
        var c := components[i];
        if c.matchesSelector && !(|c.id| >= 3 && c.id[..3] == "btn") {
          components := components[i := c.(classes := c.classes + {EditableClass}, listening := true)];
        }
        i := i + 1;
      }
      if wasValid {
        forall j | 0 <= j < |components|
          ensures SelectedClass in components[j].classes <==> SelectedClass in old(components[j]).classes
        {
          MadeEditableIdempotent(old(components[j]));
        }
        SameMarksKeepValid(old(components), components, selectedElement);
      }
    }

    /** deactivate: the body mark and the panel go, every editable
        component loses its editable and selected classes and its offsets
        (stored positions are kept), and the selection is dropped. */
    method Deactivate()
      requires selectedElement.Some? ==> selectedElement.value < |components|
      modifies this
      ensures !bodyActive && !panelShown && selectedElement == None
      ensures indicator == if old(selectedElement).Some? then None else old(indicator)
      ensures |components| == old(|components|)
      ensures forall j :: 0 <= j < |components| ==>
        components[j] == if old(selectedElement) == Some(j) then Unmarked(Unedited(old(components[j]))) else Unedited(old(components[j]))
      ensures isActive == old(isActive) && gridSize == old(gridSize) && positionData == old(positionData)
      ensures old(Valid()) ==> Valid()
    {
      bodyActive := false;
      panelShown := false;
      var i := 0;
      while i < |components|
        invariant 0 <= i <= |components| == old(|components|)
        invariant forall j :: 0 <= j < i ==> components[j] == Unedited(old(components[j]))
        invariant forall j :: i <= j < |components| ==> components[j] == old(components[j])
        invariant !bodyActive && !panelShown
        invariant isActive == old(isActive) && selectedElement == old(selectedElement) && indicator == old(indicator)
        invariant gridSize == old(gridSize) && positionData == old(positionData)
      {
        var c := components[i];
        if EditableClass in c.classes {
          components := components[i := c.(classes := c.classes - {EditableClass, SelectedClass}, left := Unset, top := Unset)];
        }
        i := i + 1;
      }
      DeselectElement();
    }

    /** toggle: the mode flips, and the editor is activated or deactivated. */
    method Toggle()
      requires selectedElement.Some? ==> selectedElement.value < |components|
      modifies this
      ensures isActive == !old(isActive)
      ensures bodyActive == isActive && panelShown == isActive
      ensures |components| == old(|components|)
      ensures isActive ==> (selectedElement == old(selectedElement) && indicator == old(indicator)
        && forall j :: 0 <= j < |components| ==> components[j] == MadeEditable(old(components[j])))
      ensures !isActive ==> (selectedElement == None && indicator == (if old(selectedElement).Some? then None else old(indicator))
        && forall j :: 0 <= j < |components| ==>
          components[j] == if old(selectedElement) == Some(j) then Unmarked(Unedited(old(components[j]))) else Unedited(old(components[j])))
      ensures positionData == old(positionData) && gridSize == old(gridSize)
      ensures old(Valid()) ==> Valid()
    {
      isActive := !isActive;
      if isActive {
        Activate();
      } else {
        Deactivate();
      }
    }

    /** moveElement(direction, step): the selected component's offsets move
        by `step` in the direction, both offsets are written back as pixel
        styles, the indicator follows, and the new offsets are stored under
        the component's id. */
    method MoveElement(direction: string, step: int, freshSuffix: string)
      requires selectedElement.Some? ==> selectedElement.value < |components|
      modifies this
      ensures old(selectedElement).None? ==> components == old(components) && positionData == old(positionData) && indicator == old(indicator)
      ensures old(selectedElement).Some? ==>
        var k := old(selectedElement).value;
        && components == old(components)[k := MovedComponent(old(components[k]), direction, step, freshSuffix)]
        && positionData == old(positionData)[MoveKey(old(components[k]), freshSuffix) := Moved(CurrentOffset(old(components[k])), direction, step)]
        && indicator == (if old(indicator).Some? then Some(IndicatorText(Moved(CurrentOffset(old(components[k])), direction, step))) else None)
      ensures selectedElement == old(selectedElement) && isActive == old(isActive) && gridSize == old(gridSize)
      ensures bodyActive == old(bodyActive) && panelShown == old(panelShown)
      ensures old(Valid()) ==> Valid()
    {
      ghost var wasValid := Valid();
      if selectedElement.None? {
        return;
      }
      var k := selectedElement.value;
      var el := components[k];
      // parseInt(style) || 0 on both offsets, the switch on the direction,
      // both styles written back and an id generated when there is none
      var moved := Moved(CurrentOffset(el), direction, step);
      var id := MoveKey(el, freshSuffix);
      components := components[k := MovedComponent(el, direction, step, freshSuffix)];
      // updatePositionIndicator reads the offsets back from the styles
      if indicator.Some? {
        indicator := Some(IndicatorText(moved));
      }
      positionData := positionData[id := moved];
      if wasValid {
        SameMarksKeepValid(old(components), components, selectedElement);
      }
    }

    /** The keydown listener: nothing happens unless the mode is active and
        a component is selected; then Escape drops the selection, Ctrl+s
        saves the layout (reported by `saved`), and an arrow key moves the
        component by 10 with Shift and by the grid size without. */
    method KeyDown(key: string, ctrlKey: bool, shiftKey: bool, freshSuffix: string) returns (saved: bool)
      requires selectedElement.Some? ==> selectedElement.value < |components|
      modifies this
      ensures saved <==> old(isActive) && old(selectedElement).Some? && ctrlKey && key == "s"
      ensures !old(isActive) || old(selectedElement).None? ==>
        components == old(components) && selectedElement == old(selectedElement) && positionData == old(positionData)
        && indicator == old(indicator)
      ensures old(isActive) && old(selectedElement).Some? && key == "Escape" ==>
        selectedElement == None && components == Deselected(old(components), old(selectedElement)) && positionData == old(positionData)
        && indicator == None
      ensures old(isActive) && old(selectedElement).Some? && IsArrow(key) ==>
        var k := old(selectedElement).value;
        var moved := Moved(CurrentOffset(old(components[k])), key, StepFor(shiftKey, old(gridSize)));
        && selectedElement == old(selectedElement)
        && components == old(components)[k := MovedComponent(old(components[k]), key, StepFor(shiftKey, old(gridSize)), freshSuffix)]
        && positionData == old(positionData)[MoveKey(old(components[k]), freshSuffix) := moved]
        && indicator == (if old(indicator).Some? then Some(IndicatorText(moved)) else None)
      ensures old(isActive) && old(selectedElement).Some? && key != "Escape" && !IsArrow(key) ==>
        components == old(components) && selectedElement == old(selectedElement) && positionData == old(positionData)
        && indicator == old(indicator)
      ensures selectedElement.Some? ==> selectedElement == old(selectedElement) && |components| == old(|components|)
      ensures isActive == old(isActive) && gridSize == old(gridSize)
      ensures bodyActive == old(bodyActive) && panelShown == old(panelShown)
      ensures old(Valid()) ==> Valid()
    {
      ghost var wasValid := Valid();
      saved := false;
      if !isActive || selectedElement.None? {
        return;
      }
      if key == "Escape" {
        DeselectElement();
        if wasValid {
          DeselectedClears(old(components), old(selectedElement));
        }
        return;
      }
      if ctrlKey && key == "s" {
        saved := true;
        return;
      }
      if key == "ArrowUp" || key == "ArrowDown" || key == "ArrowLeft" || key == "ArrowRight" {
        var step := if shiftKey then ShiftStep else gridSize;
        MoveElement(key, step, freshSuffix);
      }
    }

    /** resetPositions: unless the user declines the confirmation, every
        editable component loses its offsets, the stored positions are
        cleared and the user is told so. */
    method ResetPositions(confirmed: bool, log: EventLog)
      modifies this, log
      ensures !confirmed ==> components == old(components) && positionData == old(positionData) && log.alerts == old(log.alerts)
      ensures confirmed ==>
        |components| == old(|components|)
        && (forall j :: 0 <= j < |components| ==> components[j] == PositionReset(old(components[j])))
        && positionData == map[]
        && log.alerts == old(log.alerts) + [ResetNotice]
      ensures log.events == old(log.events)
      ensures isActive == old(isActive) && selectedElement == old(selectedElement) && indicator == old(indicator)
      ensures gridSize == old(gridSize) && bodyActive == old(bodyActive) && panelShown == old(panelShown)
      ensures old(Valid()) ==> Valid()
    {
      if !confirmed {
        return;
      }
      var i := 0;
      while i < |components|
        invariant 0 <= i <= |components| == old(|components|)
        invariant forall j :: 0 <= j < i ==> components[j] == PositionReset(old(components[j]))
        invariant forall j :: i <= j < |components| ==> components[j] == old(components[j])
        invariant isActive == old(isActive) && selectedElement == old(selectedElement) && indicator == old(indicator)
        invariant positionData == old(positionData) && unchanged(log)
        invariant gridSize == old(gridSize) && bodyActive == old(bodyActive) && panelShown == old(panelShown)
      {
        if EditableClass in components[i].classes {
          components := components[i := components[i].(left := Unset, top := Unset)];
        }
        i := i + 1;
      }
      positionData := map[];
      log.Alert(ResetNotice);
    }
  }

  /** Making components editable twice is making them editable once, an
      ineligible component is never touched, and the selected class is
      never added or removed. */
  lemma MadeEditableIdempotent(c: Component)
    ensures MadeEditable(MadeEditable(c)) == MadeEditable(c)
    ensures !Eligible(c) ==> MadeEditable(c) == c
    ensures Eligible(c) ==> EditableClass in MadeEditable(c).classes && MadeEditable(c).listening
    ensures SelectedClass in MadeEditable(c).classes <==> SelectedClass in c.classes
  {
    if Eligible(c) {
      assert c.classes + {EditableClass} + {EditableClass} == c.classes + {EditableClass};
    }
  }

  /** Deactivation clears an editable component's offsets and its selected
      class but keeps its listener and its id. */
  lemma UneditedKeepsListener(c: Component)
    ensures Unedited(c).listening == c.listening && Unedited(c).id == c.id
    ensures EditableClass in c.classes ==> CurrentOffset(Unedited(c)) == Offset(0, 0) && SelectedClass !in Unedited(c).classes
  {
  }

  /** Activating the editor, clicking a component, then pressing
      Shift+ArrowRight and ArrowLeft stores the component 9 pixels to the
      right of where it started. */
  method NudgeScenario(log: EventLog)
    modifies log
    ensures log.events == old(log.events)
  {
    var editor := new SBOEditMode([Component("box", {"sbo-edit-text"}, true, false, Unset, Unset)]);
    editor.Toggle();
    assert "box"[..3][1] == 'o';
    assert editor.components[0].listening;
    editor.HandleElementClick(0);
    var s1 := editor.KeyDown("ArrowRight", false, true, "x");
    MovedShowsStored(Component("box", {"sbo-edit-text", EditableClass, SelectedClass}, true, true, Unset, Unset), "ArrowRight", 10, "x");
    var s2 := editor.KeyDown("ArrowLeft", false, false, "x");
    assert editor.positionData["box"] == Offset(9, 0);
  }
}
