# Vehicle-incident risk treemap, modelled in Dafny

The application lets a user choose the scenarios of three damaging energy
mechanisms, a set of operating contexts and a two-level equipment
selection. It turns that selection into a five-level tree:

risk title → operating context → tier-1 equipment → tier-2 equipment → mechanism → scenario

It then draws the tree as a nested treemap that the user can drill into.
This project models, as pure functions over immutable data:

- the catalogue and the tree builder (`src/data/Data.tsx`);
- the treemap's layout tree, visibility filter, labels, tooltip,
  breadcrumb, zoom and text wrapping (`src/components/NestedTreemap.tsx`);
- the selection state and handlers of the screen
  (`src/screens/DataVisualisationScreen.tsx`);
- the three selectors: `src/components/EquipmentPicker.tsx`,
  `src/components/OperatingContext.tsx` and `src/components/Scenarios.tsx`.

Modules, from the bottom up:

- `Wrappers`, `Seqs`: `Option`, and sequence helpers (filter, map, `RemoveAll` = `filter(x => x !== v)`, subsequences).
- `Catalogue`: the scenario lists, mechanisms, equipment and operating contexts.
- `DataTree`: the data node (`name`, optional `value`, `children` absent or present) with its totals and leaf counts.
- `EquipmentPicker`: parent-flag derivation, child toggling, the focus and the external-data sync.
- `Builder`: `createStructuredRiskTitleData` and `mapEquipmentToDEMs`.
- `Hierarchy`: `d3.hierarchy(...).sum(...).sort(...)`, as a stable insertion sort.
- `Navigation`: `findNode`, `findPathToNode`, zoom, the breadcrumb.
- `Render`: one render pass as the code draws it; the tiles, labels, tooltips and wrap decisions.
- `CorrectedRender`: the same pass with each tooltip taken at the node's depth in the full hierarchy, compared with the code's.
- `WrapText`: `split(/\s+/)` and the greedy line breaking of `wrapText`.
- `OperatingContext`, `Scenarios`, `Screen`: the components.

Design decisions:

- A data node is identified by its path of child indices in the unsorted
  data. Every node the builder produces is a distinct object, so this path
  stands for the object identity that `findNode` and `findPathToNode` compare.
- The current root is kept as the path from the root of the full hierarchy.
- Text measurement (`getComputedTextLength`) is a parameter of `WrapText.Wrap`.

Two facts about the code shape the model. The builder prunes nothing: a
context with no selected equipment is still emitted with an empty child list
(`Builder.NoPruning`). New data always resets the current root to the new
full hierarchy (`Navigation.OnData`).

## Model

| member | source | states |
|---|---|---|
| Catalogue.CatalogueShape | src/data/Data.tsx:27-74 | three mechanisms, four equipment groups and four operating contexts; every context offers the same equipment list |
| Catalogue.MechanismNames | src/data/Data.tsx:27-31 | the mechanism keys are "Vehicle to person", "Vehicle to vehicle", "Vehicle to environment", in that order and pairwise different |
| Catalogue.AllScenariosShape | src/screens/DataVisualisationScreen.tsx:33-35 | `Object.values(allDEMs).flat()` is the three scenario lists concatenated in key order, 15 scenarios |
| Catalogue.ContextNamesDistinct | src/data/Data.tsx:69-74 | no two operating contexts share a name |
| Catalogue.EquipmentNamesDistinct | src/data/Data.tsx:34-62 | no two tier-1 equipment groups share a name |
| Catalogue.ChildNamesDistinct | src/data/Data.tsx:34-62 | within each group no two tier-2 children share a name |
| DataTree.UniformLeafCount | src/data/Data.tsx:130-185 | when every node k levels down has the same subtree, the leaf count is the number of such nodes times that subtree's leaf count |
| DataTree.UnitLeavesTotal | src/components/NestedTreemap.tsx:71-73 | when only leaves carry a value and each is 1, the sum d3 computes equals the number of leaves |
| DataTree.LeafCountSeqAppend | src/data/Data.tsx:130-185 | leaf counts add up over concatenated sibling lists |
| DataTree.CountAtDepthSeqConst | src/data/Data.tsx:130-185 | siblings that each have c nodes k levels down have, together, c times their number |
| EquipmentPicker.SelectedChildren | src/components/EquipmentPicker.tsx:80-82 | the selected children are exactly the children whose flag is set, in their original order |
| EquipmentPicker.SelectedChildrenCounts | src/components/EquipmentPicker.tsx:80-82 | each selected child occurs among the selected children as often as among all children; an unselected one does not occur |
| EquipmentPicker.CountSelectedChildren | src/components/EquipmentPicker.tsx:80-82 | the count is the number of selected children: at most the number of children, positive iff some child is selected, equal to the number of children iff all are selected |
| EquipmentPicker.UpdateParent | src/components/EquipmentPicker.tsx:87-92 | no contract of its own: the per-entry rule, characterised by `EquipmentPicker.UpdateParentStatus` |
| EquipmentPicker.UpdateParentStatus | src/components/EquipmentPicker.tsx:85-94 | names and children are kept; a parent with children ends up selected iff one of its children is; a childless parent keeps its own flag |
| EquipmentPicker.UpdateParentStatusFixpoint | src/components/EquipmentPicker.tsx:85-94 | the list is unchanged exactly when its parent flags are already consistent with the children |
| EquipmentPicker.UpdateParentStatusIdempotent | src/components/EquipmentPicker.tsx:85-94 | deriving the parent flags twice gives the same as once |
| EquipmentPicker.ToggleChildSelection | src/components/EquipmentPicker.tsx:97-109 | exactly the one addressed child flips; every other child flag and every name is kept; a childless parent keeps its flag; the parent flags come out consistent |
| EquipmentPicker.ToggleTwice | src/components/EquipmentPicker.tsx:97-109 | toggling the same child twice restores all child flags; only the parent flags are re-derived |
| EquipmentPicker.FindByName | src/components/EquipmentPicker.tsx:54-56 | `find` by name: the first entry with that name, or none exactly when no entry has it |
| EquipmentPicker.CatalogueItems | src/components/EquipmentPicker.tsx:35-37 | the fallback list is the catalogue equipment, in order, each entry with its catalogue children in order; no entry and no child is selected |
| EquipmentPicker.InitialPicker | src/components/EquipmentPicker.tsx:35-40 | a non-empty external list is taken over, an empty one falls back to the catalogue; the focus starts on the first entry |
| EquipmentPicker.SyncExternal | src/components/EquipmentPicker.tsx:46-62 | an empty external list changes nothing; a non-empty one replaces the data and keeps the focus on the entry of the same name, or moves it to the first entry |
| EquipmentPicker.Highlighted | src/components/EquipmentPicker.tsx:124-125 | a level-1 row is highlighted exactly when its name is the focused entry's name |
| EquipmentPicker.HandleParentClick | src/components/EquipmentPicker.tsx:112-114 | no contract of its own: characterised by `EquipmentPicker.ParentClickFocuses` |
| EquipmentPicker.ParentClickFocuses | src/components/EquipmentPicker.tsx:112-114 | clicking row i keeps the data, shows row i's children and highlights row i; with unique names it highlights only row i, and the level-2 `findIndex` finds row i |
| EquipmentPicker.Level1Suffix | src/components/EquipmentPicker.tsx:152 | the ` (n)` suffix appears iff some child is selected, and n is the number of selected children |
| Builder.CreateStructuredRiskTitleData | src/data/Data.tsx:130-185 | no contract of its own: the builder is characterised level by level by `Builder.RootChildren`, `Builder.ContextChildren`, `Builder.GroupChildren`, `Builder.DemLevel` and `Builder.DemLeaves`, and as a whole by `Builder.BuiltLeavesAtFive` and `Builder.LeafTotal` |
| Builder.RootChildren | src/data/Data.tsx:136-141 | the root is named after the risk title; its children are the selected contexts in catalogue order, named exactly by the selected context names, without repeats |
| Builder.ContextChildren | src/data/Data.tsx:142-147 | a context's children are the tier-1 groups whose entry is selected, in catalogue order, without repeats |
| Builder.GroupChildren | src/data/Data.tsx:150-159 | a group's children are the tier-2 names some entry of that group selects, in catalogue order, without repeats |
| Builder.SubLevel | src/data/Data.tsx:150-159 | the tier-2 names under any group are a subsequence of its children, holding a name iff some entry of the group selects it |
| Builder.DemLevel | src/data/Data.tsx:162-169 | a mechanism node is emitted iff its key or one of its scenarios is selected, in catalogue order, without repeats |
| Builder.DemLeaves | src/data/Data.tsx:170-179 | a mechanism node's leaves are its selected scenarios, in catalogue order, each worth 1 and without children |
| Builder.SubtreesUniform | src/data/Data.tsx:160-181 | every tier-2 node of the tree carries the same mechanism subtree |
| Builder.BuiltUnitLeaves | src/data/Data.tsx:170-179 | only the scenario leaves carry a value, and it is 1 |
| Builder.BuiltLeavesAtFive | src/data/Data.tsx:130-185 | a node has no `children` field exactly when it sits five levels below the root (a scenario leaf); an emitted but empty branch has the field and sits higher up |
| Builder.LeafTotal | src/data/Data.tsx:130-185 | the tree's total is its leaf count: tier-2 blocks times the selected catalogue scenarios |
| Builder.NoPruning | src/data/Data.tsx:137-147 | with no equipment selected, every selected context is still emitted, with an empty child list |
| Builder.FullDemNode | src/data/Data.tsx:103-107 | in the sample tree a mechanism node carries value 1 itself, and its scenario leaves carry no value |
| Builder.FullDemNodes | src/data/Data.tsx:103-107 | the sample tree's mechanism level lists every mechanism, in key order |
| Builder.FullGroupNode | src/data/Data.tsx:99-102 | the sample tree keeps each group's name and lists all its tier-2 names |
| Builder.MapEquipmentToDems | src/data/Data.tsx:98-110 | no contract of its own: it is `Builder.GroupNodes` applied to the catalogue, every group in catalogue order |
| Builder.GroupNodes | src/data/Data.tsx:98-110 | `mapEquipmentToDEMs` lists every equipment group, in catalogue order |
| Builder.CatalogueSubTotals | src/data/Data.tsx:98-110 | each tier-2 node of the sample tree totals 3 (one per mechanism) and has 15 leaves |
| Hierarchy.Sort | src/components/NestedTreemap.tsx:71-73 | the sorted children are a permutation of the input, largest value first |
| Hierarchy.SortStable | src/components/NestedTreemap.tsx:71-73 | nodes with equal values keep their data order |
| Hierarchy.SortDistinct | src/components/NestedTreemap.tsx:71-73 | sorting repeats no node |
| Hierarchy.Build | src/components/NestedTreemap.tsx:71-73 | each node's value is its subtree total including its own `value \|\| 0`; its children are one per data child, sorted descending |
| Hierarchy.ChildCanonical | src/components/NestedTreemap.tsx:71-73 | every child of a built node is the built node of one of the data children |
| Hierarchy.ChildrenDistinct | src/components/NestedTreemap.tsx:71-73 | the children of a built node are pairwise different |
| Hierarchy.PathAppend | src/components/NestedTreemap.tsx:232-253 | following p and then q is following p + q |
| Hierarchy.ReachableCanonical | src/components/NestedTreemap.tsx:71-73 | every reachable node is itself a built node, and its identity extends the path that leads to it |
| Hierarchy.IdentityDeterminesPath | src/components/NestedTreemap.tsx:335-348 | two paths reach nodes with the same data identity only if they are the same path |
| Hierarchy.RebuildIsSubtree | src/components/NestedTreemap.tsx:135-137 | rebuilding the hierarchy from a reachable node's data reproduces that node's subtree |
| Navigation.ContainsReachable | src/components/NestedTreemap.tsx:335-348 | every reachable node's identity is found in the tree |
| Navigation.FindNode | src/components/NestedTreemap.tsx:335-348 | `findNode` returns a path to a node with the target identity, and returns nothing exactly when none exists |
| Navigation.FindReachable | src/components/NestedTreemap.tsx:335-348 | searching for a reachable node's identity returns exactly the path to it |
| Navigation.Walk | src/components/NestedTreemap.tsx:232-247 | `findPathToNode` succeeds iff the target is in the tree; on failure the path array is restored |
| Navigation.WalkFollowsFind | src/components/NestedTreemap.tsx:232-253 | the path array `findPathToNode` leaves is the ancestor list of the path `findNode` finds |
| Navigation.AncestorsAt | src/components/NestedTreemap.tsx:232-253 | entry k of the ancestor list is the node reached by the first k steps |
| Navigation.OnData | src/components/NestedTreemap.tsx:68-77 | new data rebuilds the full hierarchy and makes it the current root |
| Navigation.ZoomTo | src/components/NestedTreemap.tsx:332-357 | clicking a tile with children makes that node of the full hierarchy the current root; clicking a tile without children changes nothing |
| Navigation.ZoomDescends | src/components/NestedTreemap.tsx:332-357 | zooming keeps navigation valid and extends the current root's path by the tile's path |
| Navigation.Breadcrumb | src/components/NestedTreemap.tsx:218-229 | at the full root the breadcrumb is the instruction text, and only there |
| Navigation.Crumbs | src/components/NestedTreemap.tsx:257-296 | no contract of its own: the segment list, characterised by `Navigation.BreadcrumbNamesAncestors` |
| Navigation.BreadcrumbNamesAncestors | src/components/NestedTreemap.tsx:257-296 | below the root: one segment per proper ancestor, naming the node k steps down, with a separator between segments and none after the last |
| Navigation.ClickSegment | src/components/NestedTreemap.tsx:276-278 | clicking segment k makes the ancestor k steps below the root the current root |
| Navigation.ZoomThenBack | src/components/NestedTreemap.tsx:276-278 | zooming into a tile and clicking the breadcrumb segment of the previous root restores the previous state |
| Render.PathsComplete | src/components/NestedTreemap.tsx:155 | `descendants()` lists exactly the valid paths |
| Render.VisiblePaths | src/components/NestedTreemap.tsx:154-164 | a node is drawn iff it is the current root or at most `maxDepth` levels below it |
| Render.LabelOf | src/components/NestedTreemap.tsx:417-428 | no contract of its own: the label, characterised by `Render.LabelBareIffNoChildField` |
| Render.LabelBareIffNoChildField | src/components/NestedTreemap.tsx:417-428 | a tile shows its bare name iff its data has no `children` field; otherwise it shows the name with the subtree total |
| Render.Category | src/components/NestedTreemap.tsx:39-47 | the category named for a depth is the list entry at that depth, and "Category" past the end of the list |
| Render.NoChildFieldDepth | src/data/Data.tsx:170-179 | when exactly the data nodes k levels down lack a `children` field, a node of the built hierarchy lacks it iff its path is k long |
| Render.TileAt | src/components/NestedTreemap.tsx:322-438 | no contract of its own: one tile, characterised by `Render.TileDescribesNode` (label, clickability, relative-depth tooltip) and `Render.WrapRule` (wrap decision) |
| Render.TilesOf | src/components/NestedTreemap.tsx:166-172 | one tile per visible path, in the same order |
| Render.ShouldWrap | src/components/NestedTreemap.tsx:429-434 | no contract of its own: the wrap test, characterised by `Render.WrapRule` |
| Render.WrapRule | src/components/NestedTreemap.tsx:429-438 | a childless tile wraps iff its data has no `children` field; a tile with children wraps iff it is at the depth limit; a wrapped tile's children are never drawn; a drawn tile below the current root whose children the limit hides wraps |
| Render.Resize | src/components/NestedTreemap.tsx:57-60 | the reported size is never below 100 in either direction, and otherwise is the container's size |
| Render.CodeTiles | src/components/NestedTreemap.tsx:135-172 | each drawn tile's tooltip is the category at the tile's depth below the current root, the depth `d.depth` has in the rebuilt hierarchy |
| Render.RenderView | src/components/NestedTreemap.tsx:80-129 | nothing happens before the container has a size; a zero total shows the title and the empty-data message; otherwise the title, the breadcrumb and the tiles, each tooltip being the category at the tile's depth below the current root |
| Render.TilesCoverVisible | src/components/NestedTreemap.tsx:154-172 | a drawn treemap has a tile for every visible node of the hierarchy rebuilt from the current root, and for no other path |
| Render.TileDescribesNode | src/components/NestedTreemap.tsx:322-428 | a tile drawn below a zoomed root carries the label and clickability of the node at the joined path of the full hierarchy; its tooltip is the category at its depth below the current root, not the node's depth |
| Render.TilesDescribeSubtree | src/components/NestedTreemap.tsx:135-172 | every drawn tile stands for a node of the full hierarchy under the current root, with that node's label and clickability, and with the category at the tile's depth below the current root as tooltip |
| CorrectedRender.CorrectedRenderView | src/components/NestedTreemap.tsx:322-329 | no contract of its own: `CorrectedRender.Corrected` applied to the code's pass, with the tooltips characterised by `CorrectedRender.CorrectedTilesDescribeSubtree` |
| CorrectedRender.Corrected | src/components/NestedTreemap.tsx:322-329 | the corrected pass (`CorrectedRenderView` applies it to the code's pass) keeps the kind of view, the title, the breadcrumb and every tile's path, caption, wrap and clickability; only each tooltip becomes the category at the current root's depth plus the tile's depth |
| CorrectedRender.CorrectedTilesDescribeSubtree | src/components/NestedTreemap.tsx:322-329 | in the corrected pass each tile stands for a node of the full hierarchy, with that node's label, and its tooltip is the category at that node's depth in the full hierarchy |
| CorrectedRender.TooltipMislabelsZoomed | src/components/NestedTreemap.tsx:322-329 | below a zoomed-in root, every tile within the category list gets a different tooltip from the code than from the corrected pass |
| CorrectedRender.ZoomedScenarioTooltip | src/components/NestedTreemap.tsx:322-329 | in the application's tree, below a zoomed-in root, every scenario tile reads "Scenario" in the corrected pass and something else in the code's |
| CorrectedRender.ScenarioDepth | src/data/Data.tsx:170-179 | in the application's tree a node shown with a bare name sits exactly five levels below the root |
| Render.ResizedViewDraws | src/components/NestedTreemap.tsx:80-87 | once the resize observer has reported, a render pass always draws something |
| WrapText.Split | src/components/NestedTreemap.tsx:379 | `split(/\s+/)` yields at least one piece; the first is empty iff the text is empty or starts with whitespace |
| WrapText.SplitNoSpace | src/components/NestedTreemap.tsx:379 | no piece contains whitespace |
| WrapText.SplitInteriorNonEmpty | src/components/NestedTreemap.tsx:379 | only the first and last pieces can be empty |
| WrapText.SplitKeepsText | src/components/NestedTreemap.tsx:379 | the pieces, concatenated, are the text with its whitespace removed |
| WrapText.SplitJoin | src/components/NestedTreemap.tsx:379 | splitting words joined by single spaces gives the words back |
| WrapText.Words | src/components/NestedTreemap.tsx:393 | `while (word = words.pop())` takes the pieces up to the first empty one |
| WrapText.WordsAll | src/components/NestedTreemap.tsx:393 | without empty pieces every piece is taken |
| WrapText.GreedyNewLine | src/components/NestedTreemap.tsx:396-404 | a word that overflows the current line starts a new line, and the layout stays greedy |
| WrapText.GreedySameLine | src/components/NestedTreemap.tsx:394-395 | a word that fits joins the current line, and the layout stays greedy |
| WrapText.Wrap | src/components/NestedTreemap.tsx:376-408 | the lines hold the words in order; each line grew only while it fit; each new line starts with the word that overflowed the line before |
| OperatingContext.HandleToggle | src/components/OperatingContext.tsx:11-17 | the name's membership flips and no other name's does; removal keeps the order of the rest; addition appends at the end; every other name keeps all its copies |
| OperatingContext.ToggleKeepsDistinct | src/components/OperatingContext.tsx:11-17 | toggling keeps a selection free of duplicates |
| OperatingContext.ToggleTwice | src/components/OperatingContext.tsx:11-17 | toggling twice selects the same names again; starting from unselected it restores the list itself |
| OperatingContext.ContextTags | src/components/OperatingContext.tsx:26-41 | one tag per catalogue context, in catalogue order |
| OperatingContext.TagHighlighted | src/components/OperatingContext.tsx:27 | a tag is highlighted iff its context is selected |
| OperatingContext.ClickFlipsOneTag | src/components/OperatingContext.tsx:36 | clicking a tag flips its highlight and no other |
| Scenarios.TabName | src/components/Scenarios.tsx:20-23 | the three tab indices name the three mechanisms in catalogue order; any other index names nothing |
| Scenarios.ControlledHighlight | src/components/Scenarios.tsx:19-23 | a tab bar following the remembered tab highlights that tab's position, the first tab otherwise |
| Scenarios.HighlightRoundTrip | src/components/Scenarios.tsx:20-23 | clicking tab i and highlighting by the remembered name gives tab i back |
| Scenarios.CheckboxChange | src/components/Scenarios.tsx:46-52 | ticking appends the scenario; unticking removes every occurrence and keeps the rest in order; every other scenario keeps all its copies |
| Scenarios.Checkboxes | src/components/Scenarios.tsx:41-45 | one checkbox per scenario of the tab, in order, ticked iff that scenario is selected |
| Scenarios.ClickIsToggle | src/components/Scenarios.tsx:45-52 | a click on a controlled checkbox toggles the scenario exactly as a context-tag click toggles a context |
| Scenarios.ChangeShows | src/components/Scenarios.tsx:45-52 | after a change the changed box shows the new state and every other box is as before |
| Scenarios.TickUntick | src/components/Scenarios.tsx:46-52 | ticking an unselected scenario and unticking it restores the selection |
| Screen.ScreenTreemap | src/screens/DataVisualisationScreen.tsx:183-191 | no contract of its own: `Render.RenderView` of the built tree at its root, three levels deep; `Screen.NoScenariosPlaceholder` states when it shows the placeholder, and `Screen.InitialTree` describes the tree it draws at start-up |
| Screen.InitialState | src/screens/DataVisualisationScreen.tsx:33-56 | all 15 scenarios and all four contexts are selected, no tag removal is pending, and the first selector and the "Vehicle to person" tab are shown |
| Screen.InitialTree | src/screens/DataVisualisationScreen.tsx:183-184 | the initial tree has 28 tier-2 blocks and 420 scenario leaves, with total 420 |
| Screen.FullSelectionTree | src/data/Data.tsx:130-185 | with every context and all equipment selected, the leaf count is 28 times the selected catalogue scenarios, and the total equals it |
| Screen.GroupsCount | src/data/Data.tsx:142-159 | when every group and child is selected, a context holds one tier-2 node per catalogue child |
| Screen.EquipmentChildCount | src/data/Data.tsx:34-62 | the catalogue has 7 tier-2 children |
| Screen.HandleRemoveScenario | src/screens/DataVisualisationScreen.tsx:62-64 | the scenario is gone, the rest keep their order and all their copies, and nothing else changes |
| Screen.HandleRemoveContext | src/screens/DataVisualisationScreen.tsx:67-69 | the context is gone, the rest keep their order and all their copies, and nothing else changes |
| Screen.HandleEquipmentChange | src/screens/DataVisualisationScreen.tsx:72-79 | a report is taken over unless a tag removal is pending; either way the flag is cleared |
| Screen.DeselectChild | src/screens/DataVisualisationScreen.tsx:88-93 | every child of that name is deselected; all other children are kept |
| Screen.HandleRemoveEquipmentChild | src/screens/DataVisualisationScreen.tsx:82-108 | the flag is set; entries of other names are kept; under the parent the child is deselected and the parent is selected iff a child still is |
| Screen.EchoSwallowed | src/screens/DataVisualisationScreen.tsx:72-108 | the picker's echo after a tag removal is ignored and clears the flag; the next report is taken over again |
| Screen.RemovedChildUnselected | src/screens/DataVisualisationScreen.tsx:82-108 | after removal no entry of that parent has that child selected, so the builder does not select it |
| Screen.RemovedChildUntagged | src/screens/DataVisualisationScreen.tsx:165-181 | after removal no tag group of that parent lists the child |
| Screen.RemovedChildUnbuilt | src/data/Data.tsx:150-159 | after removal no tier-2 node of that name is built under the parent |
| Screen.RemoveChildTwice | src/screens/DataVisualisationScreen.tsx:82-108 | removing the same child tag twice is the same as once |
| Screen.RemovedScenarioGone | src/screens/DataVisualisationScreen.tsx:62-64 | a removed scenario is filed under no mechanism tag, is no leaf of any mechanism node, and its checkbox shows unticked |
| Screen.RemovedContextGone | src/screens/DataVisualisationScreen.tsx:67-69 | a removed context is no child of the tree's root |
| Screen.SelectorShown | src/screens/DataVisualisationScreen.tsx:337-374 | a selector is shown exactly for tab indices 0-2, a different one for each, and switching changes no selection |
| Screen.HandleScenarioTabChange | src/screens/DataVisualisationScreen.tsx:131-133 | only the remembered tab changes |
| Screen.ScenariosByTab | src/screens/DataVisualisationScreen.tsx:119-128 | no contract of its own: `getScenariosByTab`, characterised by `Screen.TabClickLists` |
| Screen.TabClickLists | src/screens/DataVisualisationScreen.tsx:119-128 | clicking tab i lists mechanism i's scenarios; an index with no name falls back to "Vehicle to person" |
| Screen.MountedScenarioPanel | src/components/Scenarios.tsx:19-23 | no contract of its own: the selector right after it mounts, characterised by `Screen.RemountedTabMismatch` |
| Screen.ScenarioPanelOf | src/components/Scenarios.tsx:19-23 | no contract of its own: the selector with a tab bar following the remembered tab, characterised by `Screen.PanelListsHighlighted` |
| Screen.PanelListsHighlighted | src/components/Scenarios.tsx:19-56 | with the tab bar following the remembered tab, the checkboxes are exactly the highlighted mechanism's scenarios |
| Screen.RemountedTabMismatch | src/screens/DataVisualisationScreen.tsx:354-361 | returning to the scenario selector after choosing "Vehicle to vehicle" highlights "Vehicle to person" but lists vehicle-to-vehicle scenarios |
| Screen.CheckScenario | src/components/Scenarios.tsx:41-56 | after a checkbox change its box shows the new state; other memberships and all other state are kept |
| Screen.OwnerOf | src/screens/DataVisualisationScreen.tsx:145-158 | a scenario is filed under the first mechanism listing it; a mechanism name or an unknown scenario is filed nowhere |
| Screen.PushKeepsBucketed | src/screens/DataVisualisationScreen.tsx:145-158 | filing one more scenario keeps every bucket equal to the selected scenarios filed under its mechanism |
| Screen.GroupScenarios | src/screens/DataVisualisationScreen.tsx:136-162 | one bucket per mechanism, in key order; each holds, in selection order, exactly the selected scenarios filed under it |
| Screen.GetGroupedScenarios | src/screens/DataVisualisationScreen.tsx:136-162 | the same for the catalogue mechanisms, skipping the three mechanism names |
| Screen.ShownGroups | src/screens/DataVisualisationScreen.tsx:200-201 | the drawn mechanism tags are the groups with scenarios, in the groups' key order, each as often as in the input; a group without scenarios is not drawn |
| Screen.ShownMechanisms | src/screens/DataVisualisationScreen.tsx:136-201 | over the buckets of `getGroupedScenarios` the drawn tags keep key order, and mechanism k's tag is drawn iff some selected scenario is filed under it |
| Screen.GetSelectedEquipment | src/screens/DataVisualisationScreen.tsx:165-181 | the tagged entries are, in order, exactly those selected with a selected child, each with exactly its selected children |
| Screen.ShowsTagsIff | src/screens/DataVisualisationScreen.tsx:169-171 | an entry gets tags iff it and at least one child are selected |
| Screen.TagsFromList | src/screens/DataVisualisationScreen.tsx:165-181 | every tag group's parent is an entry of the list, and its children are selected children of that parent |
| Screen.RiskEnvironment | src/screens/DataVisualisationScreen.tsx:248-322 | no contract of its own: the "Risk Environment" panel, characterised by `Screen.PanelStates` |
| Screen.PanelStates | src/screens/DataVisualisationScreen.tsx:248-322 | the divider shows iff there are context tags and equipment tags; the placeholder iff there are neither; never both |
| Screen.NoScenariosPlaceholder | src/screens/DataVisualisationScreen.tsx:183-191 | with no catalogue scenario selected, the treemap shows the empty-data message |

## Left out

- Geometry and paint: the treemap layout (`d3.treemap`, padding, rounding), rectangle sizes, the `max(0, x1 - x0)` clamps, colours, fonts, the shadow filter, `format(",d")` and the breadcrumb's x offsets. Tiles are described by path, label, tooltip, wrap decision and clickability only.
- Draw order: `d3.group` by height and `descendants()` in breadth-first order. The model lists tiles in pre-order; which tiles exist does not depend on the order.
- `Math.random` tile and clip ids: they only wire clip paths.
- The DOM, React scheduling, `ResizeObserver` timing and the `setTimeout` that clears the picker's processing flag. Handlers are modelled as functions from state to state.
- Text measurement: `getComputedTextLength` is the `measure` parameter of `WrapText.Wrap`.
- EquipmentPicker.ToggleChildSelection: requires both indices to be in range. The code indexes without a check and throws otherwise, for example when `findIndex` returns -1.
- EquipmentPicker.ToggleChildSelection: does not model the in-place write to the shared children array. The write also changes the focused entry and the screen's own list.
- EquipmentPicker: the effect at EquipmentPicker.tsx:71-77 that reports every change back is folded into `Screen.HandleEquipmentChange` / `Screen.EchoSwallowed`.
- Hierarchy.Sort: an insertion sort standing for the engine's stable sort. Only the resulting order is claimed.
- The commented-out `sampleData` switch: `Builder.GroupNodes` models `mapEquipmentToDEMs`, but the screen never shows that tree.

## Findings

| source | as written | input that shows it | evidently intended | confidence | as-written member | corrected member |
|---|---|---|---|---|---|---|
| src/components/NestedTreemap.tsx:322-329 | the tooltip takes `d.depth` from the hierarchy rebuilt from the current root, so it counts from the current root | zoom into the context "Surface": the zoomed root's tile reads "Risk" and its tier-1 tiles read "Operating Context"; scenario tiles never read "Scenario" | the comment says absolute depth: the category at the node's depth in the full hierarchy, i.e. the current root's depth plus the relative depth | not executed | Render.RenderView, CorrectedRender.TooltipMislabelsZoomed, CorrectedRender.ZoomedScenarioTooltip | CorrectedRender.CorrectedRenderView, CorrectedRender.Corrected, CorrectedRender.CorrectedTilesDescribeSubtree |
| src/screens/DataVisualisationScreen.tsx:354-361 | `selectedTab` is handed to `Scenarios`, which never reads it; its tab bar has no `index` and starts on the first tab every time the selector mounts | choose "Vehicle to vehicle", switch to "Operating context / Work location", switch back: "Vehicle to person" is highlighted but the vehicle-to-vehicle checkboxes are listed | the highlighted tab follows the remembered tab, so the listed checkboxes belong to the highlighted mechanism | not executed | Screen.MountedScenarioPanel, Screen.RemountedTabMismatch | Screen.ScenarioPanelOf, Screen.PanelListsHighlighted |
