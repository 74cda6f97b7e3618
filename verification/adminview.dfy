/** The small pieces of page state behind the administrator's history tab:
    which entry is expanded, and which entries are ticked for export. */
module AdminView {
  import opened Basics

  /** Clicking the toggle button of entry `idx`: the expanded entry closes,
      any other entry opens in its place. */
  function Toggle(expanded: Option<nat>, idx: nat): (r: Option<nat>)
    ensures r == Some(idx) <==> expanded != Some(idx)
    ensures r.Some? ==> r.value == idx
  {
    if expanded == Some(idx) then None else Some(idx)
  }

  /** Clicking the same button twice restores a collapsed tab, and re-opens
      an entry that was open. */
  lemma ToggleTwice(expanded: Option<nat>, idx: nat)
    ensures Toggle(Toggle(expanded, idx), idx) == (if expanded == Some(idx) then Some(idx) else None)
  {
  }

  /** The checkbox of entry `idx` is drawn ticked when `idx` is selected; when
      the user's tick disagrees with the set, the set follows it and the page
      reruns. `rerun` is true exactly when the set changed. */
  datatype Checked = Checked(selected: set<nat>, rerun: bool)

  function CheckBox(selected: set<nat>, idx: nat, ticked: bool): (r: Checked)
    ensures idx in r.selected <==> ticked
    ensures forall j :: j != idx ==> (j in r.selected <==> j in selected)
    ensures r.rerun <==> r.selected != selected
  {
    if ticked then
      if idx !in selected then Checked(selected + {idx}, true) else Checked(selected, false)
    else
      if idx in selected then Checked(selected - {idx}, true) else Checked(selected, false)
  }

  /** Re-drawing a checkbox with its current state changes nothing. */
  lemma CheckBoxStable(selected: set<nat>, idx: nat)
    ensures CheckBox(selected, idx, idx in selected) == Checked(selected, false)
  {
  }

  /** The "선택 초기화" (clear selection) button. */
  function ClearSelection(selected: set<nat>): (r: set<nat>)
    ensures forall j :: j !in r
  {
    {}
  }
}
