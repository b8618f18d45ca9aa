// The window template: createSBOWindow's wrapper and title-bar buttons, and
// the minimize, maximize and close handlers over the windows of a page.

module Window {
  import opened Text
  import opened Dom
  import opened Events

  const MaximizedClass := "sbo-window--maximized"
  const MaximizedAttr := "data-is-maximized"
  const MinimizedAttr := "data-is-minimized"
  const OriginalDisplayAttr := "data-original-display"
  const MaximizeBtnClass := "sbo-window-btn--maximize"
  const RestoreBtnClass := "sbo-window-btn--restore"
  const TitleAttr := "title"
  const AriaLabelAttr := "aria-label"
  const MaximizeTitle := "Ekranı Kapla"
  const RestoreTitle := "Önceki Boyuta Dön"

  /** A title-bar button: its classes, title and aria-label. */
  datatype WindowButtonView = WindowButtonView(classes: set<string>, title: string, ariaLabel: string)

  datatype WindowView = WindowView(
    id: string,
    classes: set<string>,
    maximizedAttr: string,
    title: string,
    controls: seq<WindowButtonView>,
    hasStrip: bool,
    footer: Option<string>)

  /** `${b}` for a boolean. */
  function BoolText(b: bool): string
  {
    if b then "true" else "false"
  }

  const MinimizeButton := WindowButtonView({"sbo-window-btn", "sbo-window-btn--minimize"}, "Simge Durumuna Küçült", "Minimize")
  const CloseButton := WindowButtonView({"sbo-window-btn", "sbo-window-btn--close"}, "Kapat", "Close")

  /** The maximize button in its maximized (restore) or normal form. */
  function MaximizeButton(isMaximized: bool): (r: WindowButtonView)
    ensures RestoreBtnClass in r.classes <==> isMaximized
    ensures MaximizeBtnClass in r.classes <==> !isMaximized
    ensures r.title == (if isMaximized then RestoreTitle else MaximizeTitle)
  {
    if isMaximized then WindowButtonView({"sbo-window-btn", RestoreBtnClass}, RestoreTitle, "Restore")
    else WindowButtonView({"sbo-window-btn", MaximizeBtnClass}, MaximizeTitle, "Maximize")
  }

  /** createWindowControls: minimize, maximize and close buttons, each when
      enabled, in that order; the maximize button takes its restore form
      when the window starts maximized. */
  function CreateWindowControls(showMinimize: bool, showMaximize: bool, showClose: bool, isMaximized: bool): (r: seq<WindowButtonView>)
    ensures |r| == (if showMinimize then 1 else 0) + (if showMaximize then 1 else 0) + (if showClose then 1 else 0)
    ensures showMinimize ==> r[0] == MinimizeButton
    ensures showMaximize ==> r[if showMinimize then 1 else 0] == MaximizeButton(isMaximized)
    ensures showClose ==> r[|r| - 1] == CloseButton
    ensures forall i :: 0 <= i < |r| ==>
      (showMinimize && r[i] == MinimizeButton)
      || (showMaximize && r[i] == MaximizeButton(isMaximized))
      || (showClose && r[i] == CloseButton)
  {
    (if showMinimize then [MinimizeButton] else [])
    + (if showMaximize then [MaximizeButton(isMaximized)] else [])
    + (if showClose then [CloseButton] else [])
  }

  /** createSBOWindow. An empty footer renders no footer. */
  function CreateSBOWindow(uniqueId: string, title: string, showMinimize: bool, showMaximize: bool, showClose: bool,
                           showStrip: bool, isMaximized: bool, footer: string): WindowView
  {
    WindowView(uniqueId,
               if isMaximized then {"sbo-window", MaximizedClass} else {"sbo-window"},
               BoolText(isMaximized),
               title,
               CreateWindowControls(showMinimize, showMaximize, showClose, isMaximized),
               showStrip,
               if footer != "" then Some(footer) else None)
  }

  /** A window of the page: its id, the wrapper element, its inline
      `style.display` ("" when unset) and its maximize/restore button. */
  datatype WindowState = WindowState(id: string, elem: Elem, display: string, maxButton: Option<Elem>)

  function ButtonElem(b: WindowButtonView): Elem
  {
    Elem(b.classes, map[TitleAttr := b.title, AriaLabelAttr := b.ariaLabel])
  }

  /** A rendered window as inserted into the page. */
  function MountWindow(v: WindowView, showMaximize: bool, isMaximized: bool): WindowState
  {
    WindowState(v.id, Elem(v.classes, map[MaximizedAttr := v.maximizedAttr]), "",
                if showMaximize then Some(ButtonElem(MaximizeButton(isMaximized))) else None)
  }

  /** `getAttribute('data-is-maximized') === 'true'` */
  predicate IsMaximized(w: WindowState)
  {
    GetAttr(w.elem, MaximizedAttr) == Some("true")
  }

  /** `getAttribute('data-is-minimized') === 'true'` */
  predicate IsMinimized(w: WindowState)
  {
    GetAttr(w.elem, MinimizedAttr) == Some("true")
  }

  /** The wrapper class and the button agree with the maximized attribute. */
  predicate Consistent(w: WindowState)
  {
    (HasClass(w.elem, MaximizedClass) <==> IsMaximized(w))
    && (w.maxButton.Some? ==>
          var b := w.maxButton.value;
          (HasClass(b, RestoreBtnClass) <==> IsMaximized(w))
          && (HasClass(b, MaximizeBtnClass) <==> !IsMaximized(w))
          && GetAttr(b, TitleAttr) == Some(if IsMaximized(w) then RestoreTitle else MaximizeTitle))
  }

  /** The window after handleWindowMinimize. */
  function MinimizeToggled(w: WindowState): WindowState
  {
    var newState := !IsMinimized(w);
    var e := SetAttr(w.elem, MinimizedAttr, BoolText(newState));
    if newState then
      w.(elem := SetAttr(e, OriginalDisplayAttr, if w.display == "" then "flex" else w.display), display := "none")
    else
      w.(elem := e, display := match GetAttr(e, OriginalDisplayAttr)
                               case None => "flex"
                               case Some(d) => if d == "" then "flex" else d)
  }

  /** The maximize/restore button after a toggle to `newState`. */
  function ButtonToggled(b: Elem, newState: bool): Elem
  {
    if newState then
      Elem(b.classes - {MaximizeBtnClass} + {RestoreBtnClass}, b.attrs[TitleAttr := RestoreTitle][AriaLabelAttr := "Restore"])
    else
      Elem(b.classes - {RestoreBtnClass} + {MaximizeBtnClass}, b.attrs[TitleAttr := MaximizeTitle][AriaLabelAttr := "Maximize"])
  }

  /** The window after handleWindowMaximize. */
  function MaximizeToggled(w: WindowState): WindowState
  {
    var newState := !IsMaximized(w);
    var e := SetAttr(w.elem, MaximizedAttr, BoolText(newState));
    w.(elem := if newState then AddClass(e, MaximizedClass) else RemoveClass(e, MaximizedClass),
       maxButton := match w.maxButton
                    case None => None
                    case Some(b) => Some(ButtonToggled(b, newState)))
  }

  /** `document.getElementById(id)` over the windows of the page. */
  function FindWindow(ws: seq<WindowState>, id: string): (r: Option<nat>)
    ensures r.Some? ==> r.value < |ws| && ws[r.value].id == id
    ensures r.Some? ==> forall j :: 0 <= j < r.value ==> ws[j].id != id
    ensures r.None? ==> forall j :: 0 <= j < |ws| ==> ws[j].id != id
  {
    if ws == [] then None
    else if ws[0].id == id then Some(0)
    else match FindWindow(ws[1..], id)
      case None => None
      case Some(j) => Some(j + 1)
  }

  /** A freshly rendered window is consistent and neither minimized nor
      hidden. */
  lemma MountedConsistent(uniqueId: string, title: string, showMinimize: bool, showMaximize: bool, showClose: bool,
                          showStrip: bool, isMaximized: bool, footer: string)
    ensures var w := MountWindow(CreateSBOWindow(uniqueId, title, showMinimize, showMaximize, showClose, showStrip, isMaximized, footer),
                                 showMaximize, isMaximized);
      Consistent(w) && !IsMinimized(w) && (IsMaximized(w) <==> isMaximized) && w.display == ""
  {
  }

  /** Maximizing flips the maximized state, keeps the window consistent,
      and a second toggle brings the state back. */
  lemma MaximizeToggleFlips(w: WindowState)
    requires Consistent(w)
    ensures IsMaximized(MaximizeToggled(w)) == !IsMaximized(w)
    ensures Consistent(MaximizeToggled(w))
    ensures IsMaximized(MaximizeToggled(MaximizeToggled(w))) == IsMaximized(w)
    ensures MaximizeToggled(w).display == w.display && IsMinimized(MaximizeToggled(w)) == IsMinimized(w)
  {
    var w1 := MaximizeToggled(w);
    assert GetAttr(w1.elem, MaximizedAttr) == Some(BoolText(!IsMaximized(w)));
    assert GetAttr(w1.elem, MinimizedAttr) == GetAttr(w.elem, MinimizedAttr);
  }

  /** Minimizing hides the window and records how it was shown; minimizing
      again shows it the way it was shown before ("flex" when no inline
      display was set), and the maximized state is untouched. */
  lemma MinimizeRoundTrip(w: WindowState)
    requires !IsMinimized(w)
    ensures IsMinimized(MinimizeToggled(w)) && MinimizeToggled(w).display == "none"
    ensures !IsMinimized(MinimizeToggled(MinimizeToggled(w)))
    ensures MinimizeToggled(MinimizeToggled(w)).display == (if w.display == "" then "flex" else w.display)
    ensures IsMaximized(MinimizeToggled(w)) == IsMaximized(w)
  {
    var w1 := MinimizeToggled(w);
    assert GetAttr(w1.elem, MinimizedAttr) == Some("true");
    assert GetAttr(w1.elem, MaximizedAttr) == GetAttr(w.elem, MaximizedAttr);
    var w2 := MinimizeToggled(w1);
    assert GetAttr(w2.elem, MinimizedAttr) == Some("false");
  }

  class WindowPage {
    /** The windows of the page, in document order. */
    var windows: seq<WindowState>

    constructor (windows0: seq<WindowState>)
      ensures windows == windows0
    {
      windows := windows0;
    }

    /** handleWindowMinimize(windowId): a missing window is a no-op;
        otherwise the window's minimized state flips, it is hidden or shown
        again, and the event carries the new state. */
    method HandleMinimize(windowId: string, log: EventLog)
      modifies this, log
      ensures FindWindow(old(windows), windowId).None? ==> windows == old(windows) && log.events == old(log.events)
      ensures FindWindow(old(windows), windowId).Some? ==>
        var k := FindWindow(old(windows), windowId).value;
        windows == old(windows)[k := MinimizeToggled(old(windows[k]))]
        && log.events == old(log.events) + [WindowMinimize(windowId, !IsMinimized(old(windows[k])))]
      ensures log.alerts == old(log.alerts)
    {
      var found := FindWindow(windows, windowId);
      if found.None? {
        return;
      }
      var k := found.value;
      var w := windows[k];
      var isMinimized := GetAttr(w.elem, MinimizedAttr) == Some("true");
      var newState := !isMinimized;
      w := w.(elem := SetAttr(w.elem, MinimizedAttr, if newState then "true" else "false"));
      if newState {
        w := w.(elem := SetAttr(w.elem, OriginalDisplayAttr, if w.display == "" then "flex" else w.display));
        w := w.(display := "none");
      } else {
        var originalDisplay := GetAttr(w.elem, OriginalDisplayAttr);
        w := w.(display := if originalDisplay.None? || originalDisplay.value == "" then "flex" else originalDisplay.value);
      }
      windows := windows[k := w];
      log.Dispatch(WindowMinimize(windowId, newState));
    }

    /** handleWindowMaximize(windowId): a missing window is a no-op;
        otherwise the maximized state flips, the wrapper class and the
        button follow it, and the event carries the new state. */
    method HandleMaximize(windowId: string, log: EventLog)
      modifies this, log
      ensures FindWindow(old(windows), windowId).None? ==> windows == old(windows) && log.events == old(log.events)
      ensures FindWindow(old(windows), windowId).Some? ==>
        var k := FindWindow(old(windows), windowId).value;
        windows == old(windows)[k := MaximizeToggled(old(windows[k]))]
        && log.events == old(log.events) + [WindowMaximize(windowId, !IsMaximized(old(windows[k])))]
      ensures log.alerts == old(log.alerts)
    {
      var found := FindWindow(windows, windowId);
      if found.None? {
        return;
      }
      var k := found.value;
      var w := windows[k];
      var newState := !(GetAttr(w.elem, MaximizedAttr) == Some("true"));
      var e := SetAttr(w.elem, MaximizedAttr, if newState then "true" else "false");
      if newState {
        e := AddClass(e, MaximizedClass);
      } else {
        e := RemoveClass(e, MaximizedClass);
      }
      var button := w.maxButton;
      if button.Some? {
        var b := button.value;
        if newState {
          b := RemoveClass(b, MaximizeBtnClass);
          b := AddClass(b, RestoreBtnClass);
          b := SetAttr(b, TitleAttr, RestoreTitle);
          b := SetAttr(b, AriaLabelAttr, "Restore");
        } else {
          b := RemoveClass(b, RestoreBtnClass);
          b := AddClass(b, MaximizeBtnClass);
          b := SetAttr(b, TitleAttr, MaximizeTitle);
          b := SetAttr(b, AriaLabelAttr, "Maximize");
        }
        button := Some(b);
      }
      windows := windows[k := w.(elem := e, maxButton := button)];
      log.Dispatch(WindowMaximize(windowId, newState));
    }

    /** handleWindowClose(windowId): a missing window is a no-op; otherwise
        the cancelable close event is emitted and, unless a listener
        cancelled it, the window leaves the page. */
    method HandleClose(windowId: string, cancelled: bool, log: EventLog)
      modifies this, log
      ensures FindWindow(old(windows), windowId).None? ==> windows == old(windows) && log.events == old(log.events)
      ensures FindWindow(old(windows), windowId).Some? ==>
        var k := FindWindow(old(windows), windowId).value;
        windows == (if cancelled then old(windows) else old(windows)[..k] + old(windows)[k + 1..])
        && log.events == old(log.events) + [WindowClose(windowId)]
      ensures log.alerts == old(log.alerts)
    {
      var found := FindWindow(windows, windowId);
      if found.None? {
        return;
      }
      var k := found.value;
      log.Dispatch(WindowClose(windowId));
      var shouldClose := !cancelled;
      if shouldClose {
        windows := windows[..k] + windows[k + 1..];
      }
    }
  }

  /** Closing a window whose id no other window shares leaves no window
      with that id, so a second close of it is a no-op. */
  lemma CloseRemovesWindow(ws: seq<WindowState>, id: string)
    requires FindWindow(ws, id).Some?
    requires forall j, l :: 0 <= j < l < |ws| && ws[j].id == id ==> ws[l].id != id
    ensures var k := FindWindow(ws, id).value;
      FindWindow(ws[..k] + ws[k + 1..], id).None? && |ws[..k] + ws[k + 1..]| == |ws| - 1
  {
    var k := FindWindow(ws, id).value;
    var rest := ws[..k] + ws[k + 1..];
    forall j | 0 <= j < |rest|
      ensures rest[j].id != id
    {
      if j >= k {
        assert rest[j] == ws[j + 1];
      }
    }
  }
}
