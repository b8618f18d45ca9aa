// The option (radio) button group: handleOptionButtonChange brings the
// selected class of every container in the changed radio's group in line
// with the radios' checked states.

module OptionButton {
  import opened Text
  import opened Dom
  import opened Events

  const SelectedClass := "sbo-option-button--selected"

  /** A radio input of the page: its id, name and value, whether it is
      checked, and the class list of its `.sbo-option-button` label when it
      has one. */
  datatype Radio = Radio(id: string, name: string, value: string, checked: bool, container: Option<set<string>>)

  /** A radio after the sync: its container carries the selected class
      exactly when the radio is checked. */
  function SyncedRadio(r: Radio): Radio
  {
    match r.container
    case None => r
    case Some(cs) => r.(container := Some(if r.checked then cs + {SelectedClass} else cs - {SelectedClass}))
  }

  /** The container of radio r shows it as selected. */
  predicate ShownSelected(r: Radio)
  {
    r.container.Some? && SelectedClass in r.container.value
  }

  class RadioPage {
    /** The radio inputs of the page, in document order. */
    var radios: seq<Radio>

    constructor (radios0: seq<Radio>)
      ensures radios == radios0
    {
      radios := radios0;
    }

    /** Every radio named `name` that has a container shows the selected
        class exactly when it is checked. */
    ghost predicate GroupInSync(name: string)
      reads this
    {
      forall j :: 0 <= j < |radios| && radios[j].name == name && radios[j].container.Some? ==>
        (ShownSelected(radios[j]) <==> radios[j].checked)
    }

    /** handleOptionButtonChange(radio), radio being radio k: the radios of
        its group are synced, the others and every checked state are left
        alone, and the event carries the radio's value, name and id. */
    method HandleChange(k: nat, log: EventLog)
      requires k < |radios|
      modifies this, log
      ensures |radios| == old(|radios|)
      ensures forall j :: 0 <= j < |radios| ==>
        radios[j] == if old(radios[j].name) == old(radios[k].name) then SyncedRadio(old(radios[j])) else old(radios[j])
      ensures GroupInSync(old(radios[k].name))
      ensures log.events == old(log.events) + [OptionButtonChanged(old(radios[k].value), old(radios[k].name), old(radios[k].id))]
      ensures log.alerts == old(log.alerts)
    {
      var radio := radios[k];
      var name := radio.name;
      var i := 0;
      while i < |radios|
        invariant 0 <= i <= |radios| == old(|radios|)
        invariant forall j :: 0 <= j < i ==>
          radios[j] == if old(radios[j].name) == name then SyncedRadio(old(radios[j])) else old(radios[j])
        invariant forall j :: i <= j < |radios| ==> radios[j] == old(radios[j])
        invariant unchanged(log)
      {
        if radios[i].name == name && radios[i].container.Some? {
          var cs := radios[i].container.value;
          radios := radios[i := radios[i].(container := Some(if radios[i].checked then cs + {SelectedClass} else cs - {SelectedClass}))];
        }
        i := i + 1;
      }
      log.Dispatch(OptionButtonChanged(radio.value, name, radio.id));
    }
  }

  /** Syncing keeps a radio's identity and checked state, and shows it
      selected exactly when it is checked and has a container. */
  lemma SyncedRadioShows(r: Radio)
    ensures var s := SyncedRadio(r);
      s.id == r.id && s.name == r.name && s.value == r.value && s.checked == r.checked
      && s.container.Some? == r.container.Some?
      && (ShownSelected(s) <==> r.checked && r.container.Some?)
      && SyncedRadio(s) == s
  {
    if r.container.Some? {
      var cs := r.container.value;
      if r.checked {
        assert cs + {SelectedClass} + {SelectedClass} == cs + {SelectedClass};
      } else {
        assert cs - {SelectedClass} - {SelectedClass} == cs - {SelectedClass};
      }
    }
  }

  /** When the browser has left exactly radio k of the group checked, the
      sync leaves exactly k's container showing the selection. */
  lemma OneCheckedOneShown(radios: seq<Radio>, name: string, k: nat)
    requires k < |radios| && radios[k].name == name && radios[k].container.Some?
    requires forall j :: 0 <= j < |radios| && radios[j].name == name ==> (radios[j].checked <==> j == k)
    ensures forall j :: 0 <= j < |radios| && radios[j].name == name ==> (ShownSelected(SyncedRadio(radios[j])) <==> j == k)
  {
    forall j | 0 <= j < |radios| && radios[j].name == name
      ensures ShownSelected(SyncedRadio(radios[j])) <==> j == k
    {
      SyncedRadioShows(radios[j]);
    }
  }
}
