// The tab control: createSBOTabControl's initial active tab and its header
// and content panes, and handleTabClick over the mounted control, both as
// written (the content lookup also matches the headers) and with the lookup
// confined to the content panes.

module Tabs {
  import opened Text
  import opened Dom
  import opened Events

  const TabIdAttr := "data-tab-id"
  const PaneAttr := "data-pane"
  const DisabledAttr := "disabled"
  const HeaderActiveClass := "sbo-tab-header--active"
  const ContentActiveClass := "sbo-tab-content--active"

  /** A tab of the configuration. A pane of 0 stands for an absent one;
      an absent id, caption or content is "". */
  datatype Tab = Tab(id: string, caption: string, pane: int, isDisabled: bool, content: string)

  datatype TabHeaderView = TabHeaderView(tabId: string, pane: string, active: bool, disabled: bool, caption: string)
  datatype TabContentView = TabContentView(tabId: string, pane: string, active: bool, content: string)

  datatype TabControlView = TabControlView(
    id: string,
    classes: set<string>,
    headers: seq<TabHeaderView>,
    contents: seq<TabContentView>)

  /** `activeTabId || (tabs.length > 0 ? tabs[0].id : null)`; an absent
      activeTabId is "", and None is null. */
  function InitialActiveTab(tabs: seq<Tab>, activeTabId: string): Option<string>
  {
    if activeTabId != "" then Some(activeTabId)
    else if |tabs| > 0 then Some(tabs[0].id)
    else None
  }

  /** `tab.pane || 1`, as the attribute text. */
  function PaneText(pane: int): string
  {
    if pane == 0 then "1" else IntToDecimal(pane)
  }

  /** `tab.id === activeTab` */
  predicate IsActive(tab: Tab, activeTab: Option<string>)
  {
    activeTab == Some(tab.id)
  }

  function HeaderViewFor(tab: Tab, activeTab: Option<string>): TabHeaderView
  {
    TabHeaderView(tab.id, PaneText(tab.pane), IsActive(tab, activeTab), tab.isDisabled, tab.caption)
  }

  function ContentViewFor(tab: Tab, activeTab: Option<string>): TabContentView
  {
    TabContentView(tab.id, PaneText(tab.pane), IsActive(tab, activeTab), tab.content)
  }

  /** createSBOTabControl: one header button and one content pane per tab. */
  function CreateSBOTabControl(uniqueId: string, tabs: seq<Tab>, activeTabId: string, isDisabled: bool): (v: TabControlView)
    ensures |v.headers| == |tabs| && |v.contents| == |tabs|
    ensures forall k :: 0 <= k < |tabs| ==> v.headers[k].tabId == tabs[k].id && v.contents[k].tabId == tabs[k].id
    ensures forall k :: 0 <= k < |tabs| ==>
      (v.headers[k].active <==> InitialActiveTab(tabs, activeTabId) == Some(tabs[k].id))
      && v.contents[k].active == v.headers[k].active
    ensures forall k :: 0 <= k < |tabs| ==> v.headers[k].disabled == tabs[k].isDisabled
  {
    var activeTab := InitialActiveTab(tabs, activeTabId);
    TabControlView(uniqueId,
                   {"sbo-tab-control"} + (if isDisabled then {"sbo-tab-control--disabled"} else {}),
                   seq(|tabs|, k requires 0 <= k < |tabs| => HeaderViewFor(tabs[k], activeTab)),
                   seq(|tabs|, k requires 0 <= k < |tabs| => ContentViewFor(tabs[k], activeTab)))
  }

  /** With no activeTabId the first tab starts active; with one, the tabs
      carrying that id start active. When the tab ids are distinct and the
      initial tab is among them, exactly one header and the content at the
      same position start active. */
  lemma InitialActiveIsUnique(tabs: seq<Tab>, activeTabId: string, a: nat)
    requires a < |tabs| && InitialActiveTab(tabs, activeTabId) == Some(tabs[a].id)
    requires forall j, l :: 0 <= j < l < |tabs| ==> tabs[j].id != tabs[l].id
    ensures var v := CreateSBOTabControl("", tabs, activeTabId, false);
      forall k :: 0 <= k < |tabs| ==> (v.headers[k].active <==> k == a) && (v.contents[k].active <==> k == a)
  {
    var v := CreateSBOTabControl("", tabs, activeTabId, false);
    forall k | 0 <= k < |tabs|
      ensures v.headers[k].active <==> k == a
    {
      if k < a {
        assert tabs[k].id != tabs[a].id;
      } else if a < k {
        assert tabs[a].id != tabs[k].id;
      }
    }
  }

  /** An absent activeTabId selects the first tab; the data-pane of a tab
      without a pane is "1". */
  lemma InitialDefaults(tabs: seq<Tab>)
    requires |tabs| > 0
    ensures var v := CreateSBOTabControl("", tabs, "", false);
      v.headers[0].active && v.contents[0].active
    ensures forall k :: 0 <= k < |tabs| && tabs[k].pane == 0 ==>
      CreateSBOTabControl("", tabs, "", false).headers[k].pane == "1"
  {
  }

  /** The header button element of a header view. */
  function HeaderElem(h: TabHeaderView): Elem
  {
    Elem({"sbo-tab-header"} + (if h.active then {HeaderActiveClass} else {})
                            + (if h.disabled then {"sbo-tab-header--disabled"} else {}),
         map[TabIdAttr := h.tabId, PaneAttr := h.pane] + (if h.disabled then map[DisabledAttr := ""] else map[]))
  }

  /** The content pane element of a content view. */
  function ContentElem(c: TabContentView): Elem
  {
    Elem({"sbo-tab-content"} + (if c.active then {ContentActiveClass} else {}),
         map[TabIdAttr := c.tabId, PaneAttr := c.pane])
  }

  /** A tab control in the page: its id, its header buttons and its content
      panes, each in document order (the headers come first). */
  datatype TabControlState = TabControlState(id: string, headers: seq<Elem>, contents: seq<Elem>)

  function MountTabControl(v: TabControlView): TabControlState
  {
    TabControlState(v.id,
                    seq(|v.headers|, k requires 0 <= k < |v.headers| => HeaderElem(v.headers[k])),
                    seq(|v.contents|, k requires 0 <= k < |v.contents| => ContentElem(v.contents[k])))
  }

  /** `document.getElementById(id)` over the tab controls of the page. */
  function FindControl(cs: seq<TabControlState>, id: string): (r: Option<nat>)
    ensures r.Some? ==> r.value < |cs| && cs[r.value].id == id
    ensures r.Some? ==> forall j :: 0 <= j < r.value ==> cs[j].id != id
    ensures r.None? ==> forall j :: 0 <= j < |cs| ==> cs[j].id != id
  {
    if cs == [] then None
    else if cs[0].id == id then Some(0)
    else match FindControl(cs[1..], id)
      case None => None
      case Some(j) => Some(j + 1)
  }

  /** The text a missing attribute puts into an attribute selector:
      `${null}` is "null". */
  function SelectorText(v: Option<string>): string
  {
    match v
    case None => "null"
    case Some(s) => s
  }

  /** The content-pane lookup as written:
      `tabControl.querySelector('[data-tab-id="…"]')` runs over the headers
      and then the panes. */
  function TargetAsWritten(t: TabControlState, tabId: Option<string>): Option<nat>
  {
    FirstWithAttr(t.headers + t.contents, TabIdAttr, SelectorText(tabId))
  }

  /** The lookup confined to the content panes: the position of the first
      pane with that tab id. */
  function TargetPane(t: TabControlState, tabId: Option<string>): Option<nat>
  {
    FirstWithAttr(t.contents, TabIdAttr, SelectorText(tabId))
  }

  /** The as-written lookup lands on a header whenever the clicked header k
      carries a data-tab-id: that header itself matches, and it precedes
      every pane. */
  lemma TargetAsWrittenIsHeader(t: TabControlState, k: nat)
    requires k < |t.headers| && GetAttr(t.headers[k], TabIdAttr).Some?
    ensures var target := TargetAsWritten(t, GetAttr(t.headers[k], TabIdAttr));
      target.Some? && target.value <= k < |t.headers|
  {
    var all := t.headers + t.contents;
    assert all[k] == t.headers[k];
  }

  /** In a mounted control with distinct tab ids, the confined lookup finds
      the pane at the position of the clicked header. */
  lemma TargetPaneMatchesHeader(tabs: seq<Tab>, activeTabId: string, uniqueId: string, k: nat)
    requires k < |tabs|
    requires forall j, l :: 0 <= j < l < |tabs| ==> tabs[j].id != tabs[l].id
    ensures var t := MountTabControl(CreateSBOTabControl(uniqueId, tabs, activeTabId, false));
      TargetPane(t, GetAttr(t.headers[k], TabIdAttr)) == Some(k)
  {
    var t := MountTabControl(CreateSBOTabControl(uniqueId, tabs, activeTabId, false));
    assert GetAttr(t.headers[k], TabIdAttr) == Some(tabs[k].id);
    assert GetAttr(t.contents[k], TabIdAttr) == Some(tabs[k].id);
    var found := TargetPane(t, Some(tabs[k].id));
    assert found.Some?;
  }

  /** The headers and panes with every active mark removed. */
  function ClearHeaders(hs: seq<Elem>): seq<Elem>
  {
    seq(|hs|, j requires 0 <= j < |hs| => RemoveClass(hs[j], HeaderActiveClass))
  }

  function ClearContents(cs: seq<Elem>): seq<Elem>
  {
    seq(|cs|, j requires 0 <= j < |cs| => RemoveClass(cs[j], ContentActiveClass))
  }

  /** Control c after a click on its header k as written: every active
      mark cleared, header k marked active, and the first element carrying
      the header's tab id (TargetAsWritten) given the pane's active class.
      The attributes are left alone. */
  function ClickedAsWritten(c: TabControlState, k: nat): TabControlState
    requires k < |c.headers|
  {
    var target := TargetAsWritten(c, GetAttr(c.headers[k], TabIdAttr));
    var nh := |c.headers|;
    c.(headers := seq(nh, j requires 0 <= j < nh =>
                      c.headers[j].(classes := (c.headers[j].classes - {HeaderActiveClass})
                                               + (if j == k then {HeaderActiveClass} else {})
                                               + (if target == Some(j) then {ContentActiveClass} else {}))),
       contents := seq(|c.contents|, j requires 0 <= j < |c.contents| =>
                       c.contents[j].(classes := (c.contents[j].classes - {ContentActiveClass})
                                                 + (if target == Some(nh + j) then {ContentActiveClass} else {}))))
  }

  /** After a click as written the clicked header is the one active header;
      when it carries a tab id the pane's active class lands on a header at
      or before it, and no pane is active; the attributes, and so the
      lookup, are unchanged. */
  lemma ClickedAsWrittenMarks(c: TabControlState, k: nat)
    requires k < |c.headers|
    ensures var r := ClickedAsWritten(c, k);
      && r.id == c.id
      && |r.headers| == |c.headers| && |r.contents| == |c.contents|
      && (forall j :: 0 <= j < |r.headers| ==> r.headers[j].attrs == c.headers[j].attrs)
      && (forall j :: 0 <= j < |r.contents| ==> r.contents[j].attrs == c.contents[j].attrs)
      && (forall j :: 0 <= j < |r.headers| ==> (HasClass(r.headers[j], HeaderActiveClass) <==> j == k))
    ensures var r := ClickedAsWritten(c, k);
      var tabId := GetAttr(c.headers[k], TabIdAttr);
      TargetAsWritten(r, tabId) == TargetAsWritten(c, tabId)
    ensures var r := ClickedAsWritten(c, k);
      var target := TargetAsWritten(c, GetAttr(c.headers[k], TabIdAttr));
      GetAttr(c.headers[k], TabIdAttr).Some? ==>
        && target.Some? && target.value <= k
        && HasClass(r.headers[target.value], ContentActiveClass)
        && forall j :: 0 <= j < |r.contents| ==> !HasClass(r.contents[j], ContentActiveClass)
  {
    var r := ClickedAsWritten(c, k);
    FirstWithAttrSameAttrs(r.headers + r.contents, c.headers + c.contents, TabIdAttr,
                           SelectorText(GetAttr(c.headers[k], TabIdAttr)));
    if GetAttr(c.headers[k], TabIdAttr).Some? {
      TargetAsWrittenIsHeader(c, k);
    }
  }

  /** The steps of handleTabClick as written (clear, mark the header, mark
      the element the lookup finds) arrive at ClickedAsWritten. */
  lemma ClickStepsAsWritten(c: TabControlState, k: nat)
    requires k < |c.headers|
    ensures var target := TargetAsWritten(c, GetAttr(c.headers[k], TabIdAttr));
      var hs := ClearHeaders(c.headers)[k := AddClass(RemoveClass(c.headers[k], HeaderActiveClass), HeaderActiveClass)];
      var cs := ClearContents(c.contents);
      var r := ClickedAsWritten(c, k);
      if target.Some? && target.value < |hs| then
        r.headers == hs[target.value := AddClass(hs[target.value], ContentActiveClass)] && r.contents == cs
      else if target.Some? then
        target.value - |hs| < |cs|
        && r.headers == hs && r.contents == cs[target.value - |hs| := AddClass(cs[target.value - |hs|], ContentActiveClass)]
      else r.headers == hs && r.contents == cs
  {
    var target := TargetAsWritten(c, GetAttr(c.headers[k], TabIdAttr));
    var hs := ClearHeaders(c.headers)[k := AddClass(RemoveClass(c.headers[k], HeaderActiveClass), HeaderActiveClass)];
    var hs' := if target.Some? && target.value < |hs| then hs[target.value := AddClass(hs[target.value], ContentActiveClass)] else hs;
    var cs := ClearContents(c.contents);
    var cs' := if target.Some? && target.value >= |hs| then cs[target.value - |hs| := AddClass(cs[target.value - |hs|], ContentActiveClass)] else cs;
    var r := ClickedAsWritten(c, k);
    forall j | 0 <= j < |hs|
      ensures r.headers[j] == hs'[j]
    {
      assert r.headers[j].classes == hs'[j].classes;
    }
    forall j | 0 <= j < |cs|
      ensures r.contents[j] == cs'[j]
    {
      assert r.contents[j].classes == cs'[j].classes;
    }
    assert r.headers == hs';
    assert r.contents == cs';
  }

  /** A second click on the same header as written leaves the control as
      the first one did. */
  lemma ClickedAsWrittenIdempotent(c: TabControlState, k: nat)
    requires k < |c.headers|
    ensures ClickedAsWritten(ClickedAsWritten(c, k), k) == ClickedAsWritten(c, k)
  {
    var r := ClickedAsWritten(c, k);
    ClickedAsWrittenMarks(c, k);
    assert GetAttr(r.headers[k], TabIdAttr) == GetAttr(c.headers[k], TabIdAttr);
    var r2 := ClickedAsWritten(r, k);
    forall j | 0 <= j < |r.headers|
      ensures r2.headers[j] == r.headers[j]
    {
      assert r2.headers[j].classes == r.headers[j].classes;
    }
    forall j | 0 <= j < |r.contents|
      ensures r2.contents[j] == r.contents[j]
    {
      assert r2.contents[j].classes == r.contents[j].classes;
    }
  }

  class TabPage {
    /** The tab controls of the page, in document order. */
    var controls: seq<TabControlState>

    constructor Mount(views: seq<TabControlView>)
      ensures controls == seq(|views|, k requires 0 <= k < |views| => MountTabControl(views[k]))
    {
      controls := seq(|views|, k requires 0 <= k < |views| => MountTabControl(views[k]));
    }

    /** The clearing pass of handleTabClick over control t: no header and no
        pane stays active. */
    method ClearActive(t: nat)
      requires t < |controls|
      modifies this
      ensures |controls| == old(|controls|)
      ensures forall j :: 0 <= j < |controls| && j != t ==> controls[j] == old(controls[j])
      ensures controls[t] == old(controls[t]).(headers := ClearHeaders(old(controls[t].headers)),
                                               contents := ClearContents(old(controls[t].contents)))
    {
      var hs := RemoveClassFromAll(controls[t].headers, HeaderActiveClass);
      var cs := RemoveClassFromAll(controls[t].contents, ContentActiveClass);
      assert hs == ClearHeaders(controls[t].headers);
      assert cs == ClearContents(controls[t].contents);
      controls := controls[t := controls[t].(headers := hs, contents := cs)];
    }

    /** handleTabClick(tabHeader, tabControlId) as written, tabHeader being
        header k of the control the id names. A disabled header or a missing
        control changes nothing. Otherwise every header and pane loses its
        active mark, the clicked header gains it, the first element of the
        control with the clicked tab id gains the pane's active class, and
        the event carries the header's tab id and pane. As rendered, that
        first element is a header, so no pane ends up active. */
    method HandleTabClickAsWritten(tabControlId: string, k: nat, log: EventLog)
      requires FindControl(controls, tabControlId).Some? ==> k < |controls[FindControl(controls, tabControlId).value].headers|
      modifies this, log
      ensures FindControl(old(controls), tabControlId).None? ==> controls == old(controls) && log.events == old(log.events)
      ensures FindControl(old(controls), tabControlId).Some? ==>
        var t := FindControl(old(controls), tabControlId).value;
        var h := old(controls[t].headers[k]);
        var target := TargetAsWritten(old(controls[t]), GetAttr(h, TabIdAttr));
        var nh := old(|controls[t].headers|);
        if DisabledAttr in h.attrs then controls == old(controls) && log.events == old(log.events)
        else
          && |controls| == old(|controls|)
          && (forall j :: 0 <= j < |controls| && j != t ==> controls[j] == old(controls[j]))
          && controls[t] == ClickedAsWritten(old(controls[t]), k)
          && |controls[t].headers| == nh
          && |controls[t].contents| == old(|controls[t].contents|)
          && (forall j :: 0 <= j < nh ==> (HasClass(controls[t].headers[j], HeaderActiveClass) <==> j == k))
          && (GetAttr(h, TabIdAttr).Some? ==>
                target.Some? && target.value < nh && HasClass(controls[t].headers[target.value], ContentActiveClass)
                && forall j :: 0 <= j < |controls[t].contents| ==> !HasClass(controls[t].contents[j], ContentActiveClass))
          && log.events == old(log.events) + [TabChanged(GetAttr(h, TabIdAttr), GetAttr(h, PaneAttr))]
      ensures log.alerts == old(log.alerts)
    {
      var found := FindControl(controls, tabControlId);
      if found.None? {
        return;
      }
      var t := found.value;
      var c0 := controls[t];
      var header := controls[t].headers[k];
      if DisabledAttr in header.attrs {
        return;
      }
      var tabId := GetAttr(header, TabIdAttr);
      var pane := GetAttr(header, PaneAttr);
      MarkClickedAsWritten(t, k);
      ClickedAsWrittenMarks(c0, k);
      log.Dispatch(TabChanged(tabId, pane));
    }

    /** The class changes of handleTabClick as written on control t: clear
        every active mark, mark header k, then look up the first element
        with its tab id and give it the pane's active class. */
    method MarkClickedAsWritten(t: nat, k: nat)
      requires t < |controls| && k < |controls[t].headers|
      modifies this
      ensures controls == old(controls)[t := ClickedAsWritten(old(controls[t]), k)]
    {
      var c0 := controls[t];
      var tabId := GetAttr(c0.headers[k], TabIdAttr);
      ClearActive(t);
      var hs := controls[t].headers;
      hs := hs[k := AddClass(hs[k], HeaderActiveClass)];
      var cs := controls[t].contents;
      // the lookup sees the attributes alone, which the class changes keep
      FirstWithAttrSameAttrs(hs + cs, c0.headers + c0.contents, TabIdAttr, SelectorText(tabId));
      var target := FirstWithAttr(hs + cs, TabIdAttr, SelectorText(tabId));
      assert target == TargetAsWritten(c0, tabId);
      ClickStepsAsWritten(c0, k);
      if target.Some? {
        if target.value < |hs| {
          hs := hs[target.value := AddClass(hs[target.value], ContentActiveClass)];
        } else {
          cs := cs[target.value - |hs| := AddClass(cs[target.value - |hs|], ContentActiveClass)];
        }
      }
      controls := controls[t := controls[t].(headers := hs, contents := cs)];
    }

    /** handleTabClick with the target looked up among the panes only: the
        clicked header becomes the one active header and the pane carrying
        its tab id the one active pane. */
    method HandleTabClick(tabControlId: string, k: nat, log: EventLog)
      requires FindControl(controls, tabControlId).Some? ==> k < |controls[FindControl(controls, tabControlId).value].headers|
      modifies this, log
      ensures FindControl(old(controls), tabControlId).None? ==> controls == old(controls) && log.events == old(log.events)
      ensures FindControl(old(controls), tabControlId).Some? ==>
        var t := FindControl(old(controls), tabControlId).value;
        var h := old(controls[t].headers[k]);
        var target := TargetPane(old(controls[t]), GetAttr(h, TabIdAttr));
        if DisabledAttr in h.attrs then controls == old(controls) && log.events == old(log.events)
        else
          && |controls| == old(|controls|)
          && (forall j :: 0 <= j < |controls| && j != t ==> controls[j] == old(controls[j]))
          && |controls[t].headers| == old(|controls[t].headers|)
          && |controls[t].contents| == old(|controls[t].contents|)
          && (forall j :: 0 <= j < |controls[t].headers| ==> (HasClass(controls[t].headers[j], HeaderActiveClass) <==> j == k))
          && (forall j :: 0 <= j < |controls[t].contents| ==>
                (HasClass(controls[t].contents[j], ContentActiveClass) <==> target == Some(j)))
          && log.events == old(log.events) + [TabChanged(GetAttr(h, TabIdAttr), GetAttr(h, PaneAttr))]
      ensures log.alerts == old(log.alerts)
    {
      var found := FindControl(controls, tabControlId);
      if found.None? {
        return;
      }
      var t := found.value;
      var header := controls[t].headers[k];
      if DisabledAttr in header.attrs {
        return;
      }
      var tabId := GetAttr(header, TabIdAttr);
      var pane := GetAttr(header, PaneAttr);
      var target := TargetPane(controls[t], tabId);
      ClearActive(t);
      var hs := controls[t].headers;
      hs := hs[k := AddClass(hs[k], HeaderActiveClass)];
      var cs := controls[t].contents;
      if target.Some? {
        cs := cs[target.value := AddClass(cs[target.value], ContentActiveClass)];
      }
      controls := controls[t := controls[t].(headers := hs, contents := cs)];
      log.Dispatch(TabChanged(tabId, pane));
    }
  }

  /** Clicking the second tab of a freshly rendered two-tab control: as
      written the second header becomes active but no pane does; with the
      confined lookup the second pane becomes the active one. */
  method TabScenario(log: EventLog)
    modifies log
    ensures log.events == old(log.events) + [TabChanged(Some("t2"), Some("1")), TabChanged(Some("t2"), Some("1"))]
  {
    var tabs := [Tab("t1", "Genel", 0, false, ""), Tab("t2", "Detay", 0, false, "")];
    var view := CreateSBOTabControl("tc", tabs, "", false);
    var page := new TabPage.Mount([view]);
    assert page.controls[0].headers[1] == HeaderElem(view.headers[1]);
    page.HandleTabClickAsWritten("tc", 1, log);
    assert !HasClass(page.controls[0].contents[1], ContentActiveClass);
    var page2 := new TabPage.Mount([view]);
    assert page2.controls[0].headers[1] == HeaderElem(view.headers[1]);
    TargetPaneMatchesHeader(tabs, "", "tc", 1);
    page2.HandleTabClick("tc", 1, log);
    assert HasClass(page2.controls[0].contents[1], ContentActiveClass);
  }
}
