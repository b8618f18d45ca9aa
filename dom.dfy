// The part of the document model the widget handlers touch: an element is
// its class list and its attributes; a node list is a sequence of elements
// in document order.

module Dom {
  import opened Text

  datatype Elem = Elem(classes: set<string>, attrs: map<string, string>)

  predicate HasClass(e: Elem, c: string)
  {
    c in e.classes
  }

  /** element.classList.add(c) */
  function AddClass(e: Elem, c: string): Elem
  {
    e.(classes := e.classes + {c})
  }

  /** element.classList.remove(c) */
  function RemoveClass(e: Elem, c: string): Elem
  {
    e.(classes := e.classes - {c})
  }

  /** element.classList.toggle(c, force) */
  function ToggleClassTo(e: Elem, c: string, force: bool): Elem
  {
    if force then AddClass(e, c) else RemoveClass(e, c)
  }

  /** element.getAttribute(k); None stands for null. */
  function GetAttr(e: Elem, k: string): Option<string>
  {
    if k in e.attrs then Some(e.attrs[k]) else None
  }

  /** element.setAttribute(k, v) */
  function SetAttr(e: Elem, k: string, v: string): Elem
  {
    e.(attrs := e.attrs[k := v])
  }

  /** element.removeAttribute(k) */
  function RemoveAttr(e: Elem, k: string): Elem
  {
    e.(attrs := e.attrs - {k})
  }

  /** `nodes.forEach(n => n.classList.remove(c))` over a node list. */
  method RemoveClassFromAll(nodes: seq<Elem>, c: string) returns (r: seq<Elem>)
    ensures |r| == |nodes|
    ensures forall j :: 0 <= j < |r| ==> !HasClass(r[j], c)
    ensures forall j :: 0 <= j < |r| ==> r[j] == RemoveClass(nodes[j], c)
  {
    r := nodes;
    var i := 0;
    while i < |r|
      invariant 0 <= i <= |r| == |nodes|
      invariant forall j :: 0 <= j < i ==> r[j] == RemoveClass(nodes[j], c)
      invariant forall j :: i <= j < |r| ==> r[j] == nodes[j]
    {
      r := r[i := RemoveClass(r[i], c)];
      i := i + 1;
    }
  }

  /** querySelector('[k="v"]') over a node list: the position of the first
      node whose attribute k equals v. */
  function FirstWithAttr(nodes: seq<Elem>, k: string, v: string): (r: Option<nat>)
    ensures r.Some? ==> r.value < |nodes| && GetAttr(nodes[r.value], k) == Some(v)
    ensures r.Some? ==> forall j :: 0 <= j < r.value ==> GetAttr(nodes[j], k) != Some(v)
    ensures r.None? ==> forall j :: 0 <= j < |nodes| ==> GetAttr(nodes[j], k) != Some(v)
  {
    if nodes == [] then None
    else if GetAttr(nodes[0], k) == Some(v) then Some(0)
    else match FirstWithAttr(nodes[1..], k, v)
      case None => None
      case Some(j) => Some(j + 1)
  }

  /** Two node lists with the same attributes position by position answer
      an attribute lookup alike. */
  lemma {:induction false} FirstWithAttrSameAttrs(a: seq<Elem>, b: seq<Elem>, k: string, v: string)
    requires |a| == |b| && forall j :: 0 <= j < |a| ==> GetAttr(a[j], k) == GetAttr(b[j], k)
    ensures FirstWithAttr(a, k, v) == FirstWithAttr(b, k, v)
  {
    if a != [] {
      FirstWithAttrSameAttrs(a[1..], b[1..], k, v);
    }
  }

  /** querySelector('.c') over a node list. */
  function FirstWithClass(nodes: seq<Elem>, c: string): (r: Option<nat>)
    ensures r.Some? ==> r.value < |nodes| && HasClass(nodes[r.value], c)
    ensures r.Some? ==> forall j :: 0 <= j < r.value ==> !HasClass(nodes[j], c)
    ensures r.None? ==> forall j :: 0 <= j < |nodes| ==> !HasClass(nodes[j], c)
  {
    if nodes == [] then None
    else if HasClass(nodes[0], c) then Some(0)
    else match FirstWithClass(nodes[1..], c)
      case None => None
      case Some(j) => Some(j + 1)
  }
}

// The values a configuration object or a data row can hold, and how a
// template literal turns them into text.
module Js {
  import opened Text

  /** A JavaScript value as the widgets meet it. Numbers are integers here;
      a Date is kept as its time value. */
  datatype JsValue = Undefined | Null | Bool(b: bool) | Num(n: int) | Str(s: string) | Date(time: int)

  /** Host-supplied formatting: Number.prototype.toLocaleString('tr-TR'),
      Date.prototype.toLocaleDateString('tr-TR') and Date.prototype.toString,
      all of which depend on the browser's locale data and time zone. */
  datatype Host = Host(localeNumber: int -> string, localeDate: int -> string, dateText: int -> string)

  /** JavaScript truthiness (NaN is not modelled). */
  predicate Truthy(v: JsValue)
  {
    match v
    case Undefined => false
    case Null => false
    case Bool(b) => b
    case Num(n) => n != 0
    case Str(s) => s != ""
    case Date(_) => true
  }

  /** `v || ''` */
  function OrEmpty(v: JsValue): (r: JsValue)
    ensures Truthy(r) ==> r == v
    ensures !Truthy(r) ==> r == Str("")
  {
    if Truthy(v) then v else Str("")
  }

  /** `${v}` in a template literal, which is also v.toString() for every
      value that is not null or undefined. */
  function Interpolate(v: JsValue, host: Host): string
  {
    match v
    case Undefined => "undefined"
    case Null => "null"
    case Bool(b) => if b then "true" else "false"
    case Num(n) => IntToDecimal(n)
    case Str(s) => s
    case Date(t) => host.dateText(t)
  }

  /** A property read `obj[key]`: an absent key reads as undefined. */
  function Prop(obj: map<string, JsValue>, key: string): JsValue
  {
    if key in obj then obj[key] else Undefined
  }
}

// Notifications: every CustomEvent dispatched on the document, and every
// alert() shown to the user, appended to a log in the order they happen.
module Events {
  import opened Text

  datatype LinkAction = OpenForm | ChooseFromList

  datatype Event =
    | GridSort(columnId: string, direction: string)
    | GridRowSelected(rowIndex: Option<int>)
    | MatrixRowSelected(matrixRowIndex: int)
    | MatrixRowAdded(matrixId: string)
    | MatrixRowDeleted(matrixId: string)
    | TabChanged(tabId: Option<string>, pane: Option<string>)
    | OptionButtonChanged(value: string, name: string, uniqueId: string)
    | LinkedButtonClicked(inputValue: string, linkedObject: Option<string>, action: LinkAction)
    | ButtonComboMainClicked(uniqueId: string, selectedValue: string, selectedText: string)
    | ButtonComboSelectionChanged(uniqueId: string, value: string, description: string, dataSource: Option<string>)
    | WindowMinimize(windowId: string, isMinimized: bool)
    | WindowMaximize(windowId: string, isMaximized: bool)
    | WindowClose(windowId: string)

  class EventLog {
    var events: seq<Event>
    var alerts: seq<string>

    constructor ()
      ensures events == [] && alerts == []
    {
      events, alerts := [], [];
    }

    /** document.dispatchEvent(new CustomEvent(...)) */
    method Dispatch(e: Event)
      modifies this
      ensures events == old(events) + [e] && alerts == old(alerts)
    {
      events := events + [e];
    }

    /** alert(message) */
    method Alert(message: string)
      modifies this
      ensures alerts == old(alerts) + [message] && events == old(events)
    {
      alerts := alerts + [message];
    }
  }
}
