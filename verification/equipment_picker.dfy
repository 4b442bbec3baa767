/**
 * The two-level equipment selection of `src/components/EquipmentPicker.tsx`.
 * A tier-1 item carries its own `selected` flag and a list of tier-2
 * children with theirs; a missing `selected` field is modelled as `false`.
 */
module EquipmentPicker {
  import opened Wrappers
  import opened Seqs
  import Catalogue

  datatype EquipmentChild = EquipmentChild(name: string, selected: bool)

  datatype EquipmentItem = EquipmentItem(name: string, selected: bool, children: seq<EquipmentChild>)

  /** The picker's own state: the equipment list and the tier-1 entry whose children are shown. */
  datatype PickerState = PickerState(data: seq<EquipmentItem>, focused: EquipmentItem)

  /** `children.filter(child => child.selected)`. */
  function SelectedChildren(cs: seq<EquipmentChild>): (r: seq<EquipmentChild>)
    ensures forall c :: c in r <==> c in cs && c.selected
    ensures IsSubseq(r, cs)
  {
    FilterIsSubseq((c: EquipmentChild) => c.selected, cs);
    Filter((c: EquipmentChild) => c.selected, cs)
  }

  /** The selected children keep every selected child as often as it occurs, and no other. */
  lemma SelectedChildrenCounts(cs: seq<EquipmentChild>)
    ensures forall c :: multiset(SelectedChildren(cs))[c] == if c.selected then multiset(cs)[c] else 0
  {
    forall c: EquipmentChild
      ensures multiset(SelectedChildren(cs))[c] == if c.selected then multiset(cs)[c] else 0
    {
      FilterMultiset((c: EquipmentChild) => c.selected, cs, c);
    }
  }

  /** `children.some(child => child.selected)`. */
  predicate HasSelectedChild(p: EquipmentItem) {
    exists i :: 0 <= i < |p.children| && p.children[i].selected
  }

  /** Number of selected children (`countSelectedChildren`). */
  function CountSelectedChildren(p: EquipmentItem): (n: nat)
    ensures n == |SelectedChildren(p.children)|
    ensures n <= |p.children|
    ensures n > 0 <==> HasSelectedChild(p)
    ensures n == |p.children| <==> forall i :: 0 <= i < |p.children| ==> p.children[i].selected
  {
    var sel := SelectedChildren(p.children);
    FilterFullLength((c: EquipmentChild) => c.selected, p.children);
    assert HasSelectedChild(p) ==> exists i :: 0 <= i < |p.children| && p.children[i] in sel;
    assert |sel| > 0 ==> sel[0] in sel;
    |sel|
  }

  /** The parent rule of `updateParentStatus` applied to one entry. */
  function UpdateParent(p: EquipmentItem): EquipmentItem {
    p.(selected := HasSelectedChild(p) || (|p.children| == 0 && p.selected))
  }

  /**
   * Every parent that has children is selected exactly when one of them is;
   * a childless parent's own flag is authoritative.
   */
  ghost predicate ParentsConsistent(data: seq<EquipmentItem>) {
    forall i :: 0 <= i < |data| && |data[i].children| > 0 ==> (data[i].selected <==> HasSelectedChild(data[i]))
  }

  /** `updateParentStatus`: re-derives every parent flag from its children. */
  function UpdateParentStatus(data: seq<EquipmentItem>): (r: seq<EquipmentItem>)
    ensures |r| == |data|
    ensures forall i :: 0 <= i < |r| ==> r[i].name == data[i].name && r[i].children == data[i].children
    ensures forall i :: 0 <= i < |r| && |r[i].children| == 0 ==> r[i].selected == data[i].selected
    ensures ParentsConsistent(r)
  {
    Map(UpdateParent, data)
  }

  /** A list is left unchanged by `updateParentStatus` exactly when its parent flags are already consistent. */
  lemma UpdateParentStatusFixpoint(data: seq<EquipmentItem>)
    ensures UpdateParentStatus(data) == data <==> ParentsConsistent(data)
  {
    var r := UpdateParentStatus(data);
    if ParentsConsistent(data) {
      forall i | 0 <= i < |data|
        ensures r[i] == data[i]
      {
        assert r[i] == UpdateParent(data[i]);
      }
    }
  }

  /** Deriving the parent flags twice is the same as deriving them once. */
  lemma UpdateParentStatusIdempotent(data: seq<EquipmentItem>)
    ensures UpdateParentStatus(UpdateParentStatus(data)) == UpdateParentStatus(data)
  {
    UpdateParentStatusFixpoint(UpdateParentStatus(data));
  }

  /** Flips one child's flag and leaves everything else alone. */
  function FlipChild(data: seq<EquipmentItem>, pi: nat, ci: nat): (r: seq<EquipmentItem>)
    requires pi < |data| && ci < |data[pi].children|
  {
    var parent := data[pi];
    var child := parent.children[ci];
    data[pi := parent.(children := parent.children[ci := child.(selected := !child.selected)])]
  }

  /**
   * `toggleChildSelection`: flips child `ci` of parent `pi`, then re-derives
   * every parent flag. The source reads `updatedData[parentIndex]` and
   * `parent.children[childIndex]` without a check and throws on a missing
   * entry, so both indices must be in range.
   */
  function ToggleChildSelection(data: seq<EquipmentItem>, pi: nat, ci: nat): (r: seq<EquipmentItem>)
    requires pi < |data| && ci < |data[pi].children|
    ensures |r| == |data|
    ensures forall i :: 0 <= i < |r| ==> r[i].name == data[i].name && |r[i].children| == |data[i].children|
    ensures forall i, j :: 0 <= i < |r| && 0 <= j < |r[i].children| ==>
      r[i].children[j].name == data[i].children[j].name &&
      r[i].children[j].selected == (if i == pi && j == ci then !data[i].children[j].selected else data[i].children[j].selected)
    ensures forall i :: 0 <= i < |r| && |r[i].children| == 0 ==> r[i].selected == data[i].selected
    ensures ParentsConsistent(r)
  {
    UpdateParentStatus(FlipChild(data, pi, ci))
  }

  /** Toggling the same child twice restores every child flag; only the parent flags end up re-derived. */
  lemma ToggleTwice(data: seq<EquipmentItem>, pi: nat, ci: nat)
    requires pi < |data| && ci < |data[pi].children|
    ensures ToggleChildSelection(ToggleChildSelection(data, pi, ci), pi, ci) == UpdateParentStatus(data)
  {
    var once := ToggleChildSelection(data, pi, ci);
    var twice := ToggleChildSelection(once, pi, ci);
    var expected := UpdateParentStatus(data);
    forall i | 0 <= i < |data|
      ensures twice[i] == expected[i]
    {
      assert twice[i].children == expected[i].children;
    }
  }

  /**
   * The first entry named `name`, as `Array.prototype.find` /
   * `findIndex` report it.
   */
  function FindByName(items: seq<EquipmentItem>, name: string): (r: Option<nat>)
    ensures r.Some? ==> r.value < |items| && items[r.value].name == name
    ensures r.Some? ==> forall j :: 0 <= j < r.value ==> items[j].name != name
    ensures r.None? <==> forall j :: 0 <= j < |items| ==> items[j].name != name
  {
    if |items| == 0 then None
    else if items[0].name == name then Some(0)
    else match FindByName(items[1..], name)
      case None => None
      case Some(k) => Some(k + 1)
  }

  /** The catalogue equipment as picker entries; the catalogue carries no `selected` fields. */
  function CatalogueItems(): (r: seq<EquipmentItem>)
    ensures |r| == |Catalogue.Equipment|
    ensures forall i :: 0 <= i < |r| ==> r[i].name == Catalogue.Equipment[i].name && !r[i].selected
    ensures forall i :: 0 <= i < |r| ==> |r[i].children| == |Catalogue.Equipment[i].children|
    ensures forall i, j :: 0 <= i < |r| && 0 <= j < |r[i].children| ==>
      r[i].children[j] == EquipmentChild(Catalogue.Equipment[i].children[j], false)
  {
    Map((g: Catalogue.EquipmentGroup) =>
          EquipmentItem(g.name, false, Map((n: string) => EquipmentChild(n, false), g.children)),
        Catalogue.Equipment)
  }

  /** Initial state: the external list when it is non-empty, otherwise the catalogue; focus on its first entry. */
  function InitialPicker(external: seq<EquipmentItem>): (r: PickerState)
    ensures |r.data| > 0 && r.focused == r.data[0]
    ensures |external| > 0 ==> r.data == external
    ensures |external| == 0 ==> r.data == CatalogueItems()
  {
    Catalogue.CatalogueShape();
    var data := if |external| > 0 then external else CatalogueItems();
    PickerState(data, data[0])
  }

  /**
   * The effect run when the external equipment list changes: a non-empty
   * list replaces the picker's data, and the focus moves to the entry with
   * the focused name, or to the first entry when there is none. An empty
   * list changes nothing.
   */
  function SyncExternal(st: PickerState, external: seq<EquipmentItem>): (r: PickerState)
    ensures |external| == 0 ==> r == st
    ensures |external| > 0 ==> r.data == external && r.focused in external
    ensures |external| > 0 && (exists j :: 0 <= j < |external| && external[j].name == st.focused.name) ==>
      r.focused.name == st.focused.name
    ensures |external| > 0 && (forall j :: 0 <= j < |external| ==> external[j].name != st.focused.name) ==>
      r.focused == external[0]
  {
    if |external| == 0 then st
    else match FindByName(external, st.focused.name)
      case Some(k) => PickerState(external, external[k])
      case None => PickerState(external, external[0])
  }

  /** `handleParentClick`: moves the focus to the clicked entry; the equipment list is untouched. */
  function HandleParentClick(st: PickerState, parent: EquipmentItem): PickerState {
    st.(focused := parent)
  }

  /** A level-1 row is highlighted when its name is the focused entry's name. */
  function Highlighted(st: PickerState): (r: seq<bool>)
    ensures |r| == |st.data|
    ensures forall i :: 0 <= i < |r| ==> (r[i] <==> st.data[i].name == st.focused.name)
  {
    Map((item: EquipmentItem) => item.name == st.focused.name, st.data)
  }

  /** No two entries share a name, as in the catalogue. */
  predicate NamesUnique(data: seq<EquipmentItem>) {
    forall a, b :: 0 <= a < b < |data| ==> data[a].name != data[b].name
  }

  /**
   * Clicking row `i` highlights that row and, when names are unique, no
   * other; the level-2 column then lists row `i`'s children, and the
   * `findIndex` its checkboxes use finds row `i`, so a level-2 click toggles
   * a child of the clicked row.
   */
  lemma ParentClickFocuses(st: PickerState, i: nat)
    requires i < |st.data|
    ensures var r := HandleParentClick(st, st.data[i]);
      r.data == st.data && r.focused.children == st.data[i].children &&
      Highlighted(r)[i]
    ensures NamesUnique(st.data) ==>
      var r := HandleParentClick(st, st.data[i]);
      FindByName(r.data, r.focused.name) == Some(i) &&
      (forall j :: 0 <= j < |r.data| ==> (Highlighted(r)[j] <==> j == i))
  {
  }

  /** The ` (n)` suffix of a level-1 row: shown only for a parent with children and a positive selected count. */
  function Level1Suffix(item: EquipmentItem): (r: Option<nat>)
    ensures r.Some? <==> HasSelectedChild(item)
    ensures r.Some? ==> 1 <= r.value <= |item.children| && r.value == |SelectedChildren(item.children)|
  {
    var n := CountSelectedChildren(item);
    if |item.children| > 0 && n > 0 then Some(n) else None
  }
}
