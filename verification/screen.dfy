/**
 * `DataVisualisationScreen`: the four pieces of selection state, the
 * handlers that change them, the tag panels that show them, and the tree
 * handed to the treemap.
 */
module Screen {
  import opened Wrappers
  import opened Seqs
  import opened Catalogue
  import opened DataTree
  import opened EquipmentPicker
  import opened Builder
  import Hierarchy
  import Navigation
  import Render
  import Scenarios

  /**
   * The screen's state. `selectedTab` is the mechanism tab of the scenario
   * selector; it is `None` after the tab bar reported an index with no
   * name. `selectYourTab` picks which selector is shown.
   */
  datatype ScreenState = ScreenState(
    scenarios: seq<string>,
    contexts: seq<string>,
    equipment: seq<EquipmentItem>,
    removingTag: bool,
    selectYourTab: int,
    selectedTab: Option<string>)

  /** The title both the tree's root and the treemap's header carry. */
  const RiskTitle: string := "Vehicle Incident"

  /** The `maxDepth` the screen passes to the treemap. */
  const ScreenMaxDepth: Render.MaxDepth := Render.Finite(3)

  /** A catalogue equipment group with itself and every child selected. */
  function AllSelected(g: EquipmentGroup): EquipmentItem {
    EquipmentItem(g.name, true, Map((n: string) => EquipmentChild(n, true), g.children))
  }

  /**
   * The initial state: every catalogue scenario, every context, every
   * equipment entry and child selected; the first selector and the
   * "Vehicle to person" tab.
   */
  function InitialScreen(): ScreenState {
    ScreenState(AllScenarios(), ContextNames(OperatingContexts), Map(AllSelected, Equipment), false, 0, Some(VehicleToPerson))
  }

  /**
   * The initial selection: the 15 catalogue scenarios mechanism by
   * mechanism, the four contexts in catalogue order, no removal pending,
   * the first selector and the "Vehicle to person" tab.
   */
  lemma InitialState()
    ensures var st := InitialScreen();
      && st.scenarios == V2pScenarios + V2vScenarios + V2eScenarios && |st.scenarios| == 15
      && st.contexts == ["Non-mining onsite", "Offsite", "Surface", "Underground"]
      && !st.removingTag && st.selectYourTab == 0 && st.selectedTab == Some(VehicleToPerson)
  {
    AllScenariosShape();
    assert ContextNames(OperatingContexts) == ["Non-mining onsite", "Offsite", "Surface", "Underground"];
  }

  /** `dynamicData`: the tree built from the current selection. */
  function DynamicData(st: ScreenState): Node {
    CreateStructuredRiskTitleData(RiskTitle, st.contexts, st.equipment, st.scenarios)
  }

  /** The treemap: the tree becomes the hierarchy's root, drawn three levels deep. */
  function ScreenTreemap(st: ScreenState, dims: Render.Dims): Render.View {
    var nav := Navigation.OnData(DynamicData(st));
    Render.RenderView(nav, dims, ScreenMaxDepth, RiskTitle)
  }

  // ----- handlers -----

  /** `handleRemoveScenario`: the scenario tag's close button. */
  function HandleRemoveScenario(st: ScreenState, scenario: string): (r: ScreenState)
    ensures scenario !in r.scenarios && IsSubseq(r.scenarios, st.scenarios)
    ensures forall x :: x != scenario ==> (x in r.scenarios <==> x in st.scenarios)
    ensures forall x :: x != scenario ==> multiset(r.scenarios)[x] == multiset(st.scenarios)[x]
    ensures r == st.(scenarios := r.scenarios)
  {
    RemoveAllKeepsOrder(st.scenarios, [], scenario);
    RemoveAllCounts(st.scenarios, scenario);
    st.(scenarios := RemoveAll(st.scenarios, scenario))
  }

  /** `handleRemoveContext`: the context tag's close button. */
  function HandleRemoveContext(st: ScreenState, context: string): (r: ScreenState)
    ensures context !in r.contexts && IsSubseq(r.contexts, st.contexts)
    ensures forall x :: x != context ==> (x in r.contexts <==> x in st.contexts)
    ensures forall x :: x != context ==> multiset(r.contexts)[x] == multiset(st.contexts)[x]
    ensures r == st.(contexts := r.contexts)
  {
    RemoveAllKeepsOrder(st.contexts, [], context);
    RemoveAllCounts(st.contexts, context);
    st.(contexts := RemoveAll(st.contexts, context))
  }

  /**
   * `handleEquipmentChange`, the picker's report of its list: taken over
   * unless a tag removal is pending, and the pending flag is cleared in
   * either case.
   */
  function HandleEquipmentChange(st: ScreenState, equipment: seq<EquipmentItem>): (r: ScreenState)
    ensures !r.removingTag
    ensures st.removingTag ==> r.equipment == st.equipment
    ensures !st.removingTag ==> r.equipment == equipment
    ensures r == st.(equipment := r.equipment, removingTag := false)
  {
    st.(equipment := if st.removingTag then st.equipment else equipment, removingTag := false)
  }

  /** The children list with every child named `child` deselected. */
  function DeselectChild(cs: seq<EquipmentChild>, child: string): (r: seq<EquipmentChild>)
    ensures |r| == |cs|
    ensures forall j :: 0 <= j < |r| ==>
      r[j].name == cs[j].name && (r[j].selected <==> cs[j].selected && cs[j].name != child)
  {
    Map((c: EquipmentChild) => if c.name == child then c.(selected := false) else c, cs)
  }

  /** One entry after removing a child tag: a matching parent gets its flag from its remaining children. */
  function RemoveChildFrom(p: EquipmentItem, parent: string, child: string): EquipmentItem {
    if p.name == parent then
      var q := p.(children := DeselectChild(p.children, child));
      q.(selected := HasSelectedChild(q))
    else p
  }

  /**
   * `handleRemoveEquipmentChild`: every entry named `parent` loses the
   * selection of every child named `child` and is selected exactly when a
   * child still is; other entries are untouched. The pending flag is set so
   * that the picker's echo of this list is not taken over.
   */
  function HandleRemoveEquipmentChild(st: ScreenState, parent: string, child: string): (r: ScreenState)
    ensures r.removingTag
    ensures r == st.(equipment := r.equipment, removingTag := true)
    ensures |r.equipment| == |st.equipment|
    ensures forall i :: 0 <= i < |r.equipment| && st.equipment[i].name != parent ==> r.equipment[i] == st.equipment[i]
    ensures forall i :: 0 <= i < |r.equipment| && st.equipment[i].name == parent ==>
      var p, q := st.equipment[i], r.equipment[i];
      && q.name == parent && |q.children| == |p.children|
      && (forall j :: 0 <= j < |q.children| ==>
           q.children[j].name == p.children[j].name &&
           (q.children[j].selected <==> p.children[j].selected && p.children[j].name != child))
      && (q.selected <==> HasSelectedChild(q))
  {
    st.(equipment := Map((p: EquipmentItem) => RemoveChildFrom(p, parent, child), st.equipment), removingTag := true)
  }

  /** The selector shown under the "Select your:" tabs. */
  datatype Selector = ScenarioSelector | ContextSelector | EquipmentSelector | NoSelector

  /** The "Select your:" tab bar's `onChange`: records the index it reports. */
  function SetSelectYourTab(st: ScreenState, index: int): ScreenState {
    st.(selectYourTab := index)
  }

  /** Which selector the screen mounts for its `selectYourTab` index: one per index 0, 1, 2 and none otherwise. */
  function ShownSelector(st: ScreenState): Selector {
    if st.selectYourTab == 0 then ScenarioSelector
    else if st.selectYourTab == 1 then ContextSelector
    else if st.selectYourTab == 2 then EquipmentSelector
    else NoSelector
  }

  /**
   * Choosing a "Select your:" tab shows a selector exactly for the three
   * tab indices, a different one for each, and changes nothing else; the
   * selections survive switching.
   */
  lemma SelectorShown(st: ScreenState, index: int, other: int)
    ensures var r := SetSelectYourTab(st, index);
      && r == st.(selectYourTab := index)
      && (ShownSelector(r) != NoSelector <==> 0 <= index < 3)
      && (0 <= index < 3 && 0 <= other < 3 && index != other ==>
            ShownSelector(r) != ShownSelector(SetSelectYourTab(st, other)))
  {
  }

  /** `handleScenarioTabChange`: records the tab the scenario selector reports. */
  function HandleScenarioTabChange(st: ScreenState, tab: Option<string>): (r: ScreenState)
    ensures r.selectedTab == tab && r == st.(selectedTab := tab)
  {
    st.(selectedTab := tab)
  }

  /** `getScenariosByTab`: the two other mechanisms by name, "Vehicle to person" for anything else. */
  function ScenariosByTab(tab: Option<string>): seq<string> {
    if tab == Some(VehicleToVehicle) then V2vScenarios
    else if tab == Some(VehicleToEnvironment) then V2eScenarios
    else V2pScenarios
  }

  /** A click on scenario tab `index`: the tab bar's name for it, handed to `handleScenarioTabChange`. */
  function ClickScenarioTab(st: ScreenState, index: int): ScreenState {
    HandleScenarioTabChange(st, Scenarios.TabName(index))
  }

  /** The checkboxes the scenario selector shows. */
  function ScenarioCheckboxes(st: ScreenState): seq<Scenarios.Checkbox> {
    Scenarios.Checkboxes(ScenariosByTab(st.selectedTab), st.scenarios)
  }

  /** The scenario selector as drawn: the highlighted mechanism tab and the checkboxes listed under it. */
  datatype ScenarioPanel = ScenarioPanel(highlighted: nat, boxes: seq<Scenarios.Checkbox>)

  /**
   * The selector as the code mounts it: the tab bar back on its first tab,
   * the checkboxes of the tab the screen remembers. It describes the panel
   * only right after a (re)mount, as `RemountedTabMismatch` uses it: while
   * the selector stays mounted, a click moves the uncontrolled tab bar to
   * the clicked tab, which this function of the screen state does not see.
   */
  function MountedScenarioPanel(st: ScreenState): ScenarioPanel {
    ScenarioPanel(Scenarios.MountedHighlight, ScenarioCheckboxes(st))
  }

  /** The selector with its tab bar following the screen's remembered tab. */
  function ScenarioPanelOf(st: ScreenState): ScenarioPanel {
    ScenarioPanel(Scenarios.ControlledHighlight(st.selectedTab), ScenarioCheckboxes(st))
  }

  /**
   * With the tab bar following the remembered tab, the checkboxes are
   * exactly the scenarios of the highlighted mechanism, in catalogue order.
   */
  lemma PanelListsHighlighted(st: ScreenState)
    ensures var p := ScenarioPanelOf(st);
      && p.highlighted < |AllDems|
      && |p.boxes| == |AllDems[p.highlighted].scenarios|
      && forall i :: 0 <= i < |p.boxes| ==> p.boxes[i].value == AllDems[p.highlighted].scenarios[i]
  {
    CatalogueShape();
    MechanismNames();
  }

  /**
   * Leaving the scenario selector after choosing "Vehicle to vehicle" and
   * coming back: the code highlights "Vehicle to person" but lists the
   * "Vehicle to vehicle" scenarios.
   */
  lemma RemountedTabMismatch()
    ensures var st := SetSelectYourTab(SetSelectYourTab(ClickScenarioTab(InitialScreen(), 1), 1), 0);
      var p := MountedScenarioPanel(st);
      && ShownSelector(st) == ScenarioSelector
      && AllDems[p.highlighted].name == VehicleToPerson
      && |p.boxes| == |V2vScenarios|
      && |p.boxes| != |AllDems[p.highlighted].scenarios|
  {
    CatalogueShape();
    MechanismNames();
    TabClickLists(InitialScreen(), 1);
  }

  /**
   * A scenario checkbox of the current tab changing to `checked`: afterwards
   * its box shows that state, and only the scenario selection changed.
   */
  function CheckScenario(st: ScreenState, scenario: string, checked: bool): (r: ScreenState)
    ensures forall b :: b in ScenarioCheckboxes(r) && b.value == scenario ==> b.isChecked == checked
    ensures forall x :: x != scenario ==> (x in r.scenarios <==> x in st.scenarios)
    ensures r == st.(scenarios := r.scenarios)
  {
    st.(scenarios := Scenarios.CheckboxChange(st.scenarios, scenario, checked))
  }

  // ----- scenario tags -----

  /** The names `getGroupedScenarios` compares against before filing a scenario: the three mechanism names. */
  const SkippedNames: seq<string> := [VehicleToPerson, VehicleToVehicle, VehicleToEnvironment]

  /** The first mechanism of `dems` from `k` on whose scenario list includes `s`. */
  function OwnerFrom(s: string, dems: seq<Dem>, k: nat): (r: Option<nat>)
    requires k <= |dems|
    ensures r.Some? ==> k <= r.value < |dems| && s in dems[r.value].scenarios
    ensures r.Some? ==> forall j :: k <= j < r.value ==> s !in dems[j].scenarios
    ensures r.None? <==> forall j :: k <= j < |dems| ==> s !in dems[j].scenarios
    decreases |dems| - k
  {
    if k == |dems| then None
    else if s in dems[k].scenarios then Some(k)
    else OwnerFrom(s, dems, k + 1)
  }

  /**
   * The mechanism a selected scenario is filed under: none for a skipped
   * name or a name no mechanism lists, otherwise the first mechanism (in key
   * order) whose list includes it.
   */
  function OwnerOf(s: string, skip: seq<string>, dems: seq<Dem>): (r: Option<nat>)
    ensures r.None? <==> s in skip || forall j :: 0 <= j < |dems| ==> s !in dems[j].scenarios
    ensures r.Some? ==> s !in skip && r.value < |dems| && s in dems[r.value].scenarios
    ensures r.Some? ==> forall j :: 0 <= j < r.value ==> s !in dems[j].scenarios
  {
    if s in skip then None else OwnerFrom(s, dems, 0)
  }

  function FiledUnder(skip: seq<string>, dems: seq<Dem>, k: nat): string -> bool {
    (s: string) => OwnerOf(s, skip, dems) == Some(k)
  }

  /** One mechanism tag and the scenario tags after it. */
  datatype ScenarioGroup = ScenarioGroup(dem: string, scenarios: seq<string>)

  /** Bucket `k` holds the scenarios of `xs` filed under mechanism `k`, for every mechanism. */
  ghost predicate Bucketed(groups: seq<ScenarioGroup>, skip: seq<string>, dems: seq<Dem>, xs: seq<string>) {
    && |groups| == |dems|
    && forall k :: 0 <= k < |groups| ==>
         groups[k].dem == dems[k].name && groups[k].scenarios == Filter(FiledUnder(skip, dems, k), xs)
  }

  /** Pushes `s` onto bucket `owner`, if it has one. */
  function Push(groups: seq<ScenarioGroup>, owner: Option<nat>, s: string): seq<ScenarioGroup> {
    match owner
    case Some(k) => if k < |groups| then groups[k := groups[k].(scenarios := groups[k].scenarios + [s])] else groups
    case None => groups
  }

  /** Filing one more scenario keeps every bucket exact. */
  lemma PushKeepsBucketed(groups: seq<ScenarioGroup>, skip: seq<string>, dems: seq<Dem>, xs: seq<string>, s: string)
    requires Bucketed(groups, skip, dems, xs)
    ensures Bucketed(Push(groups, OwnerOf(s, skip, dems), s), skip, dems, xs + [s])
  {
    var r := Push(groups, OwnerOf(s, skip, dems), s);
    forall k | 0 <= k < |r|
      ensures r[k].dem == dems[k].name && r[k].scenarios == Filter(FiledUnder(skip, dems, k), xs + [s])
    {
      FilterSnoc(FiledUnder(skip, dems, k), xs, s);
    }
  }

  lemma PushNext(groups: seq<ScenarioGroup>, skip: seq<string>, dems: seq<Dem>, selected: seq<string>, i: nat)
    requires i < |selected| && Bucketed(groups, skip, dems, selected[..i])
    ensures Bucketed(Push(groups, OwnerOf(selected[i], skip, dems), selected[i]), skip, dems, selected[..i + 1])
  {
    assert selected[..i + 1] == selected[..i] + [selected[i]];
    PushKeepsBucketed(groups, skip, dems, selected[..i], selected[i]);
  }

  /**
   * The bucketing loop of `getGroupedScenarios`: one bucket per mechanism,
   * in key order, holding the selected scenarios filed under it, in
   * selection order and with repeats kept.
   */
  method GroupScenarios(selected: seq<string>, skip: seq<string>, dems: seq<Dem>) returns (groups: seq<ScenarioGroup>)
    ensures |groups| == |dems|
    ensures forall k :: 0 <= k < |groups| ==>
      groups[k].dem == dems[k].name && groups[k].scenarios == Filter(FiledUnder(skip, dems, k), selected)
  {
    groups := Map((d: Dem) => ScenarioGroup(d.name, []), dems);
    assert selected[..0] == [];
    var i := 0;
    while i < |selected|
      invariant 0 <= i <= |selected|
      invariant Bucketed(groups, skip, dems, selected[..i])
    {
      PushNext(groups, skip, dems, selected, i);
      groups := Push(groups, OwnerOf(selected[i], skip, dems), selected[i]);
      i := i + 1;
    }
    assert selected[..i] == selected;
  }

  /** `getGroupedScenarios` over the catalogue mechanisms. */
  method GetGroupedScenarios(selected: seq<string>) returns (groups: seq<ScenarioGroup>)
    ensures |groups| == |AllDems|
    ensures forall k :: 0 <= k < |groups| ==>
      groups[k].dem == AllDems[k].name && groups[k].scenarios == Filter(FiledUnder(SkippedNames, AllDems, k), selected)
  {
    groups := GroupScenarios(selected, SkippedNames, AllDems);
  }

  /** The groups drawn: a mechanism with no scenario tags is skipped. */
  function ShownGroups(groups: seq<ScenarioGroup>): (r: seq<ScenarioGroup>)
    ensures forall g :: g in r <==> g in groups && |g.scenarios| > 0
    ensures IsSubseq(r, groups)
    ensures forall g :: multiset(r)[g] == if |g.scenarios| > 0 then multiset(groups)[g] else 0
  {
    var p := (g: ScenarioGroup) => |g.scenarios| > 0;
    FilterIsSubseq(p, groups);
    forall g: ScenarioGroup
      ensures multiset(Filter(p, groups))[g] == if |g.scenarios| > 0 then multiset(groups)[g] else 0
    {
      FilterMultiset(p, groups, g);
    }
    Filter(p, groups)
  }

  /**
   * Over the buckets of `getGroupedScenarios`, the drawn mechanism tags are
   * the buckets in key order, and bucket `k` is drawn exactly when some
   * selected scenario is filed under mechanism `k`.
   */
  lemma ShownMechanisms(groups: seq<ScenarioGroup>, skip: seq<string>, dems: seq<Dem>, selected: seq<string>)
    requires Bucketed(groups, skip, dems, selected)
    ensures IsSubseq(ShownGroups(groups), groups)
    ensures forall k :: 0 <= k < |groups| ==>
      (groups[k] in ShownGroups(groups) <==> exists s :: s in selected && FiledUnder(skip, dems, k)(s))
  {
    forall k | 0 <= k < |groups|
      ensures groups[k] in ShownGroups(groups) <==> exists s :: s in selected && FiledUnder(skip, dems, k)(s)
    {
      var b := groups[k].scenarios;
      assert b == Filter(FiledUnder(skip, dems, k), selected);
      if |b| > 0 {
        assert b[0] in b;
      }
    }
  }

  // ----- equipment tags -----

  /** One tier-1 tag and the tier-2 tags after it. */
  datatype EquipmentTags = EquipmentTags(parent: EquipmentItem, children: seq<EquipmentChild>)

  /** An entry gets tags when it is selected and at least one of its children is. */
  predicate ShowsTags(p: EquipmentItem) {
    p.selected && |SelectedChildren(p.children)| > 0
  }

  function TagsShown(): EquipmentItem -> bool {
    (p: EquipmentItem) => ShowsTags(p)
  }

  function TagParent(t: EquipmentTags): EquipmentItem {
    t.parent
  }

  /**
   * `getSelectedEquipment`: the entries that get tags, in order, each with
   * its selected children.
   */
  function GetSelectedEquipment(eq: seq<EquipmentItem>): (r: seq<EquipmentTags>)
    ensures Map(TagParent, r) == Filter(TagsShown(), eq)
    ensures forall i :: 0 <= i < |r| ==>
      r[i].parent.selected && r[i].children == SelectedChildren(r[i].parent.children) && |r[i].children| > 0
  {
    if |eq| == 0 then []
    else
      var rest := GetSelectedEquipment(eq[1..]);
      var p := eq[0];
      if ShowsTags(p) then
        TagsCons(EquipmentTags(p, SelectedChildren(p.children)), rest);
        [EquipmentTags(p, SelectedChildren(p.children))] + rest
      else rest
  }

  lemma TagsCons(t: EquipmentTags, rest: seq<EquipmentTags>)
    ensures Map(TagParent, [t] + rest) == [t.parent] + Map(TagParent, rest)
  {
    assert ([t] + rest)[1..] == rest;
  }

  /** An entry gets tags exactly when it and at least one child are selected. */
  lemma ShowsTagsIff(p: EquipmentItem)
    ensures ShowsTags(p) <==> p.selected && HasSelectedChild(p)
  {
    var n := CountSelectedChildren(p);
  }

  /** The "Risk Environment" panel: context tags, the divider, the equipment tags, the empty placeholder. */
  datatype RiskPanel = RiskPanel(contextTags: seq<string>, divider: bool, equipmentTags: seq<EquipmentTags>, placeholder: bool)

  function RiskEnvironment(st: ScreenState): RiskPanel {
    var tags := GetSelectedEquipment(st.equipment);
    RiskPanel(st.contexts, |st.contexts| > 0 && |tags| > 0, tags, |tags| == 0 && |st.contexts| == 0)
  }

  // ----- properties -----

  /**
   * The panel: the divider shows exactly when there are context tags and
   * some entry gets equipment tags; the placeholder exactly when no context
   * is selected and no entry gets tags; never both.
   */
  lemma PanelStates(st: ScreenState)
    ensures var r := RiskEnvironment(st);
      && r.contextTags == st.contexts
      && (r.divider <==> |st.contexts| > 0 && exists i :: 0 <= i < |st.equipment| && ShowsTags(st.equipment[i]))
      && (r.placeholder <==> |st.contexts| == 0 && forall i :: 0 <= i < |st.equipment| ==> !ShowsTags(st.equipment[i]))
      && !(r.divider && r.placeholder)
  {
    var tags := GetSelectedEquipment(st.equipment);
    var kept := Filter(TagsShown(), st.equipment);
    assert |Map(TagParent, tags)| == |tags|;
    if |tags| > 0 {
      assert kept[0] in kept;
    } else {
      assert kept == [];
      forall i | 0 <= i < |st.equipment|
        ensures !ShowsTags(st.equipment[i])
      {
        assert st.equipment[i] in st.equipment;
      }
    }
  }

  /** Every context, tier-1 entry and tier-2 child of the catalogue is selected. */
  ghost predicate SelectsAllEquipment(contexts: seq<string>, eq: seq<EquipmentItem>) {
    && (forall c :: c in OperatingContexts ==> c.name in contexts)
    && (forall g :: g in Equipment ==> Tier1Selected(eq, g.name))
    && (forall g, s :: g in Equipment && s in g.children ==> Tier2Selected(eq, g.name, s))
  }

  /** Number of tier-2 children over a list of groups. */
  function ChildCount(gs: seq<EquipmentGroup>): nat {
    if |gs| == 0 then 0 else |gs[0].children| + ChildCount(gs[1..])
  }

  /** With every group and child of `gs` selected, the tier-1 level built from `gs` has one tier-2 node per child. */
  lemma {:induction false} GroupsCount(gs: seq<EquipmentGroup>, eq: seq<EquipmentItem>, sc: seq<string>)
    requires forall g :: g in gs ==> Tier1Selected(eq, g.name)
    requires forall g, s :: g in gs && s in g.children ==> Tier2Selected(eq, g.name, s)
    ensures CountAtDepthSeq(Map((g: EquipmentGroup) => EquipmentNode(g, eq, sc), Filter(GroupChosen(eq), gs)), 1) == ChildCount(gs)
    decreases |gs|
  {
    if |gs| > 0 {
      GroupsCount(gs[1..], eq, sc);
      var g := gs[0];
      assert GroupChosen(eq)(g);
      FilterAll(SubChosen(eq, g.name), g.children);
      CountAtDepthZero(Kids(EquipmentNode(g, eq, sc)));
    }
  }

  lemma EquipmentChildCount()
    ensures ChildCount(Equipment) == 7
  {
    assert Equipment[1..][1..][1..][1..] == [];
  }

  /** With everything selected, every context has 7 tier-2 nodes. */
  lemma ContextsCount(contexts: seq<string>, eq: seq<EquipmentItem>, sc: seq<string>)
    requires SelectsAllEquipment(contexts, eq)
    ensures forall c :: c in OperatingContexts ==> CountAtDepth(ContextNode(c, eq, sc), 2) == 7
  {
    CatalogueShape();
    GroupsCount(Equipment, eq, sc);
    EquipmentChildCount();
  }

  /** With everything selected, the tree has 4 x 7 = 28 tier-2 nodes. */
  lemma FullSelectionBlocks(contexts: seq<string>, eq: seq<EquipmentItem>, sc: seq<string>)
    requires SelectsAllEquipment(contexts, eq)
    ensures CountAtDepth(CreateStructuredRiskTitleData(RiskTitle, contexts, eq, sc), 3) == 28
  {
    FilterAll(ContextChosen(contexts), OperatingContexts);
    ContextsCount(contexts, eq, sc);
    CatalogueShape();
    var cs := Map((c: ContextEntry) => ContextNode(c, eq, sc), OperatingContexts);
    forall i | 0 <= i < |cs|
      ensures CountAtDepth(cs[i], 2) == 7
    {
      assert OperatingContexts[i] in OperatingContexts;
    }
    CountAtDepthSeqConst(cs, 2, 7);
  }

  /**
   * With every context, tier-1 entry and tier-2 child selected, the tree has
   * 28 tier-2 nodes, each carrying the selected catalogue scenarios.
   */
  lemma FullSelectionTree(contexts: seq<string>, eq: seq<EquipmentItem>, sc: seq<string>)
    requires SelectsAllEquipment(contexts, eq)
    ensures var r := CreateStructuredRiskTitleData(RiskTitle, contexts, eq, sc);
      && CountAtDepth(r, 3) == 28
      && LeafCount(r) == 28 * |Filter(InList(sc), AllScenarios())|
      && Total(r) == LeafCount(r)
  {
    LeafTotal(RiskTitle, contexts, eq, sc);
    FullSelectionBlocks(contexts, eq, sc);
  }

  lemma InitialContexts()
    ensures forall c :: c in OperatingContexts ==> c.name in InitialScreen().contexts
  {
    var names := InitialScreen().contexts;
    forall c | c in OperatingContexts
      ensures c.name in names
    {
      var i :| 0 <= i < |OperatingContexts| && OperatingContexts[i] == c;
      assert names[i] == c.name;
    }
  }

  lemma InitialGroups()
    ensures forall g :: g in Equipment ==> Tier1Selected(InitialScreen().equipment, g.name)
  {
    var eq := InitialScreen().equipment;
    forall g | g in Equipment
      ensures Tier1Selected(eq, g.name)
    {
      var i :| 0 <= i < |Equipment| && Equipment[i] == g;
      assert eq[i].name == g.name;
    }
  }

  lemma InitialChildren()
    ensures forall g, s :: g in Equipment && s in g.children ==> Tier2Selected(InitialScreen().equipment, g.name, s)
  {
    var eq := InitialScreen().equipment;
    forall g, s | g in Equipment && s in g.children
      ensures Tier2Selected(eq, g.name, s)
    {
      var i :| 0 <= i < |Equipment| && Equipment[i] == g;
      var j :| 0 <= j < |g.children| && g.children[j] == s;
      assert eq[i].children[j].name == s;
    }
  }

  /** The initial state selects every catalogue context, tier-1 entry and tier-2 child. */
  lemma InitialSelectsAll()
    ensures SelectsAllEquipment(InitialScreen().contexts, InitialScreen().equipment)
  {
    InitialContexts();
    InitialGroups();
    InitialChildren();
  }

  /** The initial tree: 28 tier-2 blocks, each with all 15 scenarios worth 1, so 420 in all. */
  lemma InitialTree()
    ensures var r := DynamicData(InitialScreen());
      && CountAtDepth(r, 3) == 28
      && LeafCount(r) == 420
      && Total(r) == 420
  {
    var st := InitialScreen();
    InitialSelectsAll();
    FullSelectionTree(st.contexts, st.equipment, st.scenarios);
    AllScenariosShape();
    FilterAll(InList(st.scenarios), AllScenarios());
  }

  /**
   * The picker's echo of a tag removal is not taken over: after the
   * removal, the next report leaves the equipment as the removal left it and
   * clears the flag, so the report after that is taken over again.
   */
  lemma EchoSwallowed(st: ScreenState, parent: string, child: string, echo: seq<EquipmentItem>, later: seq<EquipmentItem>)
    ensures var removed := HandleRemoveEquipmentChild(st, parent, child);
      var echoed := HandleEquipmentChange(removed, echo);
      && echoed.equipment == removed.equipment
      && !echoed.removingTag
      && HandleEquipmentChange(echoed, later).equipment == later
  {
  }

  /** After a child tag is removed, no entry named `parent` has a selected child named `child`. */
  lemma RemovedChildUnselected(st: ScreenState, parent: string, child: string)
    ensures var eq := HandleRemoveEquipmentChild(st, parent, child).equipment;
      forall i, j :: 0 <= i < |eq| && eq[i].name == parent && 0 <= j < |eq[i].children| && eq[i].children[j].name == child ==>
        !eq[i].children[j].selected
    ensures !Tier2Selected(HandleRemoveEquipmentChild(st, parent, child).equipment, parent, child)
  {
  }

  /** Every tag group comes from an entry of the list, and lists only selected children of it. */
  lemma TagsFromList(eq: seq<EquipmentItem>)
    ensures var tags := GetSelectedEquipment(eq);
      forall k :: 0 <= k < |tags| ==> (tags[k].parent in eq &&
        forall j :: 0 <= j < |tags[k].children| ==> tags[k].children[j] in tags[k].parent.children && tags[k].children[j].selected)
  {
    var tags := GetSelectedEquipment(eq);
    forall k | 0 <= k < |tags|
      ensures tags[k].parent in eq
    {
      assert Map(TagParent, tags)[k] == tags[k].parent;
      assert tags[k].parent in Filter(TagsShown(), eq);
    }
  }

  /** After a child tag is removed, no equipment tag group under that parent lists it. */
  lemma RemovedChildUntagged(st: ScreenState, parent: string, child: string)
    ensures var tags := GetSelectedEquipment(HandleRemoveEquipmentChild(st, parent, child).equipment);
      forall k, j :: 0 <= k < |tags| && tags[k].parent.name == parent && 0 <= j < |tags[k].children| ==>
        tags[k].children[j].name != child
  {
    var eq := HandleRemoveEquipmentChild(st, parent, child).equipment;
    RemovedChildUnselected(st, parent, child);
    TagsFromList(eq);
  }

  /** After a child tag is removed, no tier-2 node of that name is built under the parent in any context. */
  lemma RemovedChildUnbuilt(st: ScreenState, parent: string, child: string)
    ensures var r := HandleRemoveEquipmentChild(st, parent, child);
      forall g :: g in Equipment && g.name == parent ==>
        child !in Names(Kids(EquipmentNode(g, r.equipment, r.scenarios)))
  {
    var r := HandleRemoveEquipmentChild(st, parent, child);
    RemovedChildUnselected(st, parent, child);
    forall g | g in Equipment && g.name == parent
      ensures child !in Names(Kids(EquipmentNode(g, r.equipment, r.scenarios)))
    {
      GroupChildren(g, r.equipment, r.scenarios);
    }
  }

  /** Removing the same child tag twice leaves the equipment as removing it once. */
  lemma RemoveChildTwice(st: ScreenState, parent: string, child: string)
    ensures var once := HandleRemoveEquipmentChild(st, parent, child);
      HandleRemoveEquipmentChild(once, parent, child) == once
  {
    var once := HandleRemoveEquipmentChild(st, parent, child);
    var twice := HandleRemoveEquipmentChild(once, parent, child);
    forall i | 0 <= i < |once.equipment|
      ensures twice.equipment[i] == once.equipment[i]
    {
      if once.equipment[i].name == parent {
        assert twice.equipment[i].children == once.equipment[i].children;
      }
    }
  }

  /**
   * A removed scenario tag is gone: it is filed under no mechanism, it is no
   * leaf of any mechanism node, and its checkbox shows unticked.
   */
  lemma RemovedScenarioGone(st: ScreenState, scenario: string)
    ensures var r := HandleRemoveScenario(st, scenario);
      && (forall k :: 0 <= k < |AllDems| ==> scenario !in Filter(FiledUnder(SkippedNames, AllDems, k), r.scenarios))
      && (forall d :: d in AllDems ==> scenario !in Names(Kids(DemNode(d, r.scenarios))))
      && (forall b :: b in ScenarioCheckboxes(r) && b.value == scenario ==> !b.isChecked)
  {
    var r := HandleRemoveScenario(st, scenario);
    forall d | d in AllDems
      ensures scenario !in Names(Kids(DemNode(d, r.scenarios)))
    {
      DemLeaves(d, r.scenarios);
    }
  }

  /** A removed context tag is gone: the tree has no context of that name. */
  lemma RemovedContextGone(st: ScreenState, context: string)
    ensures context !in Names(Kids(DynamicData(HandleRemoveContext(st, context))))
  {
    var r := HandleRemoveContext(st, context);
    RootChildren(RiskTitle, r.contexts, r.equipment, r.scenarios);
  }

  /**
   * Clicking scenario tab `index` lists that mechanism's scenarios; an index
   * with no name falls back to "Vehicle to person".
   */
  lemma TabClickLists(st: ScreenState, index: int)
    ensures ScenariosByTab(ClickScenarioTab(st, index).selectedTab)
      == if 0 <= index < |AllDems| then AllDems[index].scenarios else V2pScenarios
  {
    CatalogueShape();
    MechanismNames();
    assert DemNames(AllDems)[1] == AllDems[1].name && DemNames(AllDems)[2] == AllDems[2].name;
  }

  /**
   * With no catalogue scenario selected, the treemap (once it has a size)
   * shows the "no data" placeholder, whatever else is selected.
   */
  lemma NoScenariosPlaceholder(st: ScreenState, dims: Render.Dims)
    requires dims.width != 0 && dims.height != 0
    requires forall s :: s in AllScenarios() ==> s !in st.scenarios
    ensures ScreenTreemap(st, dims).Placeholder?
  {
    var d := DynamicData(st);
    LeafTotal(RiskTitle, st.contexts, st.equipment, st.scenarios);
    FilterNone(InList(st.scenarios), AllScenarios());
    var nav := Navigation.OnData(d);
    assert Navigation.Current(nav) == nav.full;
  }
}
