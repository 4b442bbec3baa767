/**
 * The scenario selector of `src/components/Scenarios.tsx`: three mechanism
 * tabs and one checkbox per scenario of the tab the screen reports.
 */
module Scenarios {
  import opened Wrappers
  import opened Seqs
  import opened Catalogue
  import OperatingContext

  /** One checkbox: the scenario and whether it is ticked. */
  datatype Checkbox = Checkbox(value: string, isChecked: bool)

  /** `tabNames` of the tab bar's `onChange`. */
  const TabNames: seq<string> := [VehicleToPerson, VehicleToVehicle, VehicleToEnvironment]

  /** `tabNames[index]`: an index past the three tabs reads `undefined`. */
  function TabName(index: int): (r: Option<string>)
    ensures r.Some? <==> 0 <= index < |AllDems|
    ensures r.Some? ==> r.value == AllDems[index].name
  {
    CatalogueShape();
    MechanismNames();
    assert TabNames == DemNames(AllDems);
    if 0 <= index < |TabNames| then Some(TabNames[index]) else None
  }

  /**
   * The tab the selector's tab bar highlights when it mounts. The bar is
   * given neither `index` nor `defaultIndex`, so it starts on the first tab
   * whatever tab the screen remembers.
   */
  const MountedHighlight: nat := 0

  /**
   * The tab a bar controlled by the screen's remembered tab highlights: the
   * position of that name, the first tab for a missing or unknown name (the
   * screen lists "Vehicle to person" scenarios then).
   */
  function ControlledHighlight(tab: Option<string>): (r: nat)
    ensures r < |TabNames|
    ensures tab.Some? && tab.value in TabNames ==> TabNames[r] == tab.value
    ensures (tab.None? || tab.value !in TabNames) ==> r == 0
  {
    if tab == Some(VehicleToVehicle) then 1
    else if tab == Some(VehicleToEnvironment) then 2
    else 0
  }

  /** The highlight follows a click: the tab named for index `i` is highlighted at index `i`. */
  lemma HighlightRoundTrip(index: int)
    requires 0 <= index < |TabNames|
    ensures ControlledHighlight(TabName(index)) == index
  {
    CatalogueShape();
    MechanismNames();
    assert TabNames == DemNames(AllDems);
  }

  /** A checkbox's `onChange`: ticking appends the scenario, unticking removes every occurrence. */
  function CheckboxChange(selected: seq<string>, scenario: string, checked: bool): (r: seq<string>)
    ensures checked ==> r == selected + [scenario]
    ensures !checked ==> scenario !in r && IsSubseq(r, selected)
    ensures forall x :: x != scenario ==> (x in r <==> x in selected)
    ensures forall x :: x != scenario ==> multiset(r)[x] == multiset(selected)[x]
  {
    if checked then selected + [scenario]
    else
      RemoveAllKeepsOrder(selected, [], scenario);
      RemoveAllCounts(selected, scenario);
      RemoveAll(selected, scenario)
  }

  /** The checkboxes for the scenarios of the current tab, ticked when selected. */
  function Checkboxes(tabScenarios: seq<string>, selected: seq<string>): (r: seq<Checkbox>)
    ensures |r| == |tabScenarios|
    ensures forall i :: 0 <= i < |r| ==> r[i].value == tabScenarios[i]
    ensures forall i :: 0 <= i < |r| ==> (r[i].isChecked <==> tabScenarios[i] in selected)
  {
    Map((s: string) => Checkbox(s, s in selected), tabScenarios)
  }

  /**
   * A click flips a controlled checkbox, so `checked` is the negation of
   * `includes`: clicking a scenario toggles it the same way clicking an
   * operating-context tag toggles a context.
   */
  lemma ClickIsToggle(selected: seq<string>, scenario: string)
    ensures CheckboxChange(selected, scenario, scenario !in selected)
      == OperatingContext.HandleToggle(selected, scenario)
  {
  }

  /** After a change, the changed checkbox shows the new state and every other checkbox is as before. */
  lemma ChangeShows(tabScenarios: seq<string>, selected: seq<string>, scenario: string, checked: bool)
    ensures var after := Checkboxes(tabScenarios, CheckboxChange(selected, scenario, checked));
      var before := Checkboxes(tabScenarios, selected);
      forall i :: 0 <= i < |after| ==>
        after[i].isChecked == (if tabScenarios[i] == scenario then checked else before[i].isChecked)
  {
  }

  /** Ticking an unselected scenario and unticking it again restores the selection. */
  lemma TickUntick(selected: seq<string>, scenario: string)
    requires scenario !in selected
    ensures CheckboxChange(CheckboxChange(selected, scenario, true), scenario, false) == selected
  {
    RemoveAllKeepsOrder(selected, [scenario], scenario);
    assert selected + [] == selected;
  }
}
