/**
 * `createStructuredRiskTitleData` and `mapEquipmentToDEMs` of
 * `src/data/Data.tsx`: the catalogue, filtered by the four selection lists,
 * as a tree root -> context -> equipment tier 1 -> equipment tier 2 ->
 * mechanism -> scenario. Nothing is pruned: a selected context, group or
 * tier-2 item is emitted even when nothing ends up below it.
 */
module Builder {
  import opened Wrappers
  import opened Seqs
  import opened Catalogue
  import opened DataTree
  import opened EquipmentPicker

  /** `selectedEquipmentData.some(item => item.name === name && item.selected)`. */
  predicate Tier1Selected(sel: seq<EquipmentItem>, name: string) {
    exists i :: 0 <= i < |sel| && sel[i].name == name && sel[i].selected
  }

  /**
   * Some entry named `parent` has a selected child named `child`. The
   * entry's own flag plays no part.
   */
  predicate Tier2Selected(sel: seq<EquipmentItem>, parent: string, child: string) {
    exists i, j :: 0 <= i < |sel| && 0 <= j < |sel[i].children| &&
      sel[i].name == parent && sel[i].children[j].name == child && sel[i].children[j].selected
  }

  /** The mechanism is named in the selection, or one of its scenarios is. */
  predicate DemSelected(scenarios: seq<string>, d: Dem) {
    d.name in scenarios || exists k :: 0 <= k < |d.scenarios| && d.scenarios[k] in scenarios
  }

  function ContextChosen(contexts: seq<string>): ContextEntry -> bool {
    (c: ContextEntry) => c.name in contexts
  }

  function GroupChosen(sel: seq<EquipmentItem>): EquipmentGroup -> bool {
    (g: EquipmentGroup) => Tier1Selected(sel, g.name)
  }

  function SubChosen(sel: seq<EquipmentItem>, parent: string): string -> bool {
    (s: string) => Tier2Selected(sel, parent, s)
  }

  function DemChosen(scenarios: seq<string>): Dem -> bool {
    (d: Dem) => DemSelected(scenarios, d)
  }

  function InList(xs: seq<string>): string -> bool {
    (s: string) => s in xs
  }

  /** `{ name: scenario, value: 1 }`: no `children` field. */
  function ScenarioLeaf(s: string): Node {
    Node(s, Some(1), Absent)
  }

  function DemNode(d: Dem, scenarios: seq<string>): Node {
    Node(d.name, None, Present(Map(ScenarioLeaf, Filter(InList(scenarios), d.scenarios))))
  }

  /** The mechanism level below every tier-2 node: it depends on the scenario selection only. */
  function DemNodes(scenarios: seq<string>): seq<Node> {
    Map((d: Dem) => DemNode(d, scenarios), Filter(DemChosen(scenarios), AllDems))
  }

  function SubEquipmentNode(name: string, scenarios: seq<string>): Node {
    Node(name, None, Present(DemNodes(scenarios)))
  }

  function EquipmentNode(g: EquipmentGroup, sel: seq<EquipmentItem>, scenarios: seq<string>): Node {
    Node(g.name, None, Present(Map((s: string) => SubEquipmentNode(s, scenarios), Filter(SubChosen(sel, g.name), g.children))))
  }

  function ContextNode(c: ContextEntry, sel: seq<EquipmentItem>, scenarios: seq<string>): Node {
    Node(c.name, None, Present(Map((g: EquipmentGroup) => EquipmentNode(g, sel, scenarios), Filter(GroupChosen(sel), c.children))))
  }

  /** `createStructuredRiskTitleData(riskTitle, selectedContexts, selectedEquipmentData, selectedScenarios)`. */
  function CreateStructuredRiskTitleData(riskTitle: string, contexts: seq<string>, sel: seq<EquipmentItem>, scenarios: seq<string>): Node {
    Node(riskTitle, None, Present(Map((c: ContextEntry) => ContextNode(c, sel, scenarios), Filter(ContextChosen(contexts), OperatingContexts))))
  }

  /** Renaming a mapped list through a name-preserving `f` gives the keys of the list. */
  lemma MapNames<E>(f: E -> Node, key: E -> string, kept: seq<E>)
    requires forall x :: f(x).name == key(x)
    ensures Names(Map(f, kept)) == Map(key, kept)
  {
  }

  /** A key occurs among the kept entries exactly when some passing catalogue entry carries it. */
  lemma {:induction false} FilteredKeys<E(!new)>(p: E -> bool, cat: seq<E>, key: E -> string)
    ensures forall n :: n in Map(key, Filter(p, cat)) <==> exists i :: 0 <= i < |cat| && p(cat[i]) && key(cat[i]) == n
  {
    var kept := Filter(p, cat);
    var names := Map(key, kept);
    forall n
      ensures n in names <==> exists i :: 0 <= i < |cat| && p(cat[i]) && key(cat[i]) == n
    {
      if n in names {
        var k :| 0 <= k < |kept| && names[k] == n;
        assert kept[k] in kept;
        var i :| 0 <= i < |cat| && cat[i] == kept[k];
      }
      if exists i :: 0 <= i < |cat| && p(cat[i]) && key(cat[i]) == n {
        var i :| 0 <= i < |cat| && p(cat[i]) && key(cat[i]) == n;
        assert cat[i] in kept;
        var k :| 0 <= k < |kept| && kept[k] == cat[i];
        assert names[k] == n;
      }
    }
  }

  /**
   * One level of the builder: the catalogue entries passing `p`, each turned
   * into a node named by `key`. The names are a subsequence of the catalogue
   * names, are exactly the names of passing entries, and repeat nothing when
   * the catalogue names do not.
   */
  lemma LevelNames<E(!new)>(p: E -> bool, cat: seq<E>, key: E -> string, f: E -> Node)
    requires forall x :: f(x).name == key(x)
    ensures IsSubseq(Names(Map(f, Filter(p, cat))), Map(key, cat))
    ensures forall n :: n in Names(Map(f, Filter(p, cat))) <==> exists i :: 0 <= i < |cat| && p(cat[i]) && key(cat[i]) == n
    ensures Distinct(Map(key, cat)) ==> Distinct(Names(Map(f, Filter(p, cat))))
  {
    var kept := Filter(p, cat);
    MapNames(f, key, kept);
    FilteredKeys(p, cat, key);
    FilterIsSubseq(p, cat);
    MapSubseq(key, kept, cat);
    if Distinct(Map(key, cat)) {
      SubseqDistinct(Map(key, kept), Map(key, cat));
    }
  }

  /**
   * Root level: the root is named `riskTitle`, carries no value, and its
   * children are the catalogue contexts named in `contexts`, in catalogue
   * order, each once however often the selection repeats it.
   */
  lemma RootChildren(riskTitle: string, contexts: seq<string>, sel: seq<EquipmentItem>, scenarios: seq<string>)
    ensures var r := CreateStructuredRiskTitleData(riskTitle, contexts, sel, scenarios);
      && r.name == riskTitle && r.value == None && r.children.Present?
      && IsSubseq(Names(Kids(r)), ContextNames(OperatingContexts))
      && (forall n :: n in Names(Kids(r)) <==> n in ContextNames(OperatingContexts) && n in contexts)
      && Distinct(Names(Kids(r)))
  {
    RootLevel(OperatingContexts, contexts, sel, scenarios);
    ContextNamesDistinct();
  }

  lemma RootLevel(cs: seq<ContextEntry>, contexts: seq<string>, sel: seq<EquipmentItem>, scenarios: seq<string>)
    ensures var kids := Map((c: ContextEntry) => ContextNode(c, sel, scenarios), Filter(ContextChosen(contexts), cs));
      && IsSubseq(Names(kids), ContextNames(cs))
      && (forall n :: n in Names(kids) <==> n in ContextNames(cs) && n in contexts)
      && (Distinct(ContextNames(cs)) ==> Distinct(Names(kids)))
  {
    var key := (c: ContextEntry) => c.name;
    var f := (c: ContextEntry) => ContextNode(c, sel, scenarios);
    LevelNames(ContextChosen(contexts), cs, key, f);
  }

  /**
   * Tier-1 level under a context: the context's groups that some selection
   * entry of the same name marks selected, in catalogue order, each once.
   */
  lemma ContextChildren(c: ContextEntry, sel: seq<EquipmentItem>, scenarios: seq<string>)
    requires c in OperatingContexts
    ensures var r := ContextNode(c, sel, scenarios);
      && r.name == c.name && r.value == None && r.children.Present?
      && IsSubseq(Names(Kids(r)), GroupNames(Equipment))
      && (forall n :: n in Names(Kids(r)) <==> n in GroupNames(Equipment) && Tier1Selected(sel, n))
      && Distinct(Names(Kids(r)))
  {
    CatalogueShape();
    assert c.children == Equipment;
    EquipmentNamesDistinct();
    GroupLevel(Equipment, sel, scenarios);
  }

  lemma GroupLevel(gs: seq<EquipmentGroup>, sel: seq<EquipmentItem>, scenarios: seq<string>)
    ensures var kids := Map((g: EquipmentGroup) => EquipmentNode(g, sel, scenarios), Filter(GroupChosen(sel), gs));
      && IsSubseq(Names(kids), GroupNames(gs))
      && (forall n :: n in Names(kids) <==> n in GroupNames(gs) && Tier1Selected(sel, n))
      && (Distinct(GroupNames(gs)) ==> Distinct(Names(kids)))
  {
    var key := (g: EquipmentGroup) => g.name;
    var f := (g: EquipmentGroup) => EquipmentNode(g, sel, scenarios);
    LevelNames(GroupChosen(sel), gs, key, f);
  }

  /**
   * Tier-2 level under a group: the group's children for which some selection
   * entry with the group's name lists a selected child of that name, in
   * catalogue order, each once.
   */
  lemma GroupChildren(g: EquipmentGroup, sel: seq<EquipmentItem>, scenarios: seq<string>)
    requires g in Equipment
    ensures var r := EquipmentNode(g, sel, scenarios);
      && r.name == g.name && r.value == None && r.children.Present?
      && IsSubseq(Names(Kids(r)), g.children)
      && (forall n :: n in Names(Kids(r)) <==> n in g.children && Tier2Selected(sel, g.name, n))
      && Distinct(Names(Kids(r)))
  {
    ChildNamesDistinct();
    SubLevel(g, sel, scenarios);
  }

  lemma SubLevel(g: EquipmentGroup, sel: seq<EquipmentItem>, scenarios: seq<string>)
    ensures var kids := Kids(EquipmentNode(g, sel, scenarios));
      && IsSubseq(Names(kids), g.children)
      && (forall n :: n in Names(kids) <==> n in g.children && Tier2Selected(sel, g.name, n))
      && (Distinct(g.children) ==> Distinct(Names(kids)))
  {
    TierTwoLevel(g.children, sel, g.name, scenarios);
  }

  /** The tier-2 level over any list of names `cs` under the group `parent`. */
  lemma TierTwoLevel(cs: seq<string>, sel: seq<EquipmentItem>, parent: string, scenarios: seq<string>)
    ensures var kids := Map((s: string) => SubEquipmentNode(s, scenarios), Filter(SubChosen(sel, parent), cs));
      && IsSubseq(Names(kids), cs)
      && (forall n :: n in Names(kids) <==> n in cs && Tier2Selected(sel, parent, n))
      && (Distinct(cs) ==> Distinct(Names(kids)))
  {
    var key := (s: string) => s;
    var f := (s: string) => SubEquipmentNode(s, scenarios);
    assert Map(key, cs) == cs;
    LevelNames(SubChosen(sel, parent), cs, key, f);
  }

  /**
   * Mechanism level: a mechanism is emitted exactly when its name or one of
   * its scenarios is selected (so a mechanism named directly may come with
   * no scenarios); its leaves are its catalogue scenarios that are
   * selected, in catalogue order, each worth 1 and without children.
   */
  lemma DemLevel(scenarios: seq<string>)
    ensures IsSubseq(Names(DemNodes(scenarios)), DemNames(AllDems))
    ensures forall n :: n in Names(DemNodes(scenarios)) <==>
      exists i :: 0 <= i < |AllDems| && DemSelected(scenarios, AllDems[i]) && AllDems[i].name == n
    ensures Distinct(Names(DemNodes(scenarios)))
    ensures forall i :: 0 <= i < |DemNodes(scenarios)| ==>
      exists d :: d in AllDems && DemSelected(scenarios, d) && DemNodes(scenarios)[i] == DemNode(d, scenarios)
  {
    MechanismNames();
    var key := (d: Dem) => d.name;
    var f := (d: Dem) => DemNode(d, scenarios);
    LevelNames(DemChosen(scenarios), AllDems, key, f);
    var kept := Filter(DemChosen(scenarios), AllDems);
    forall i | 0 <= i < |DemNodes(scenarios)|
      ensures exists d :: d in AllDems && DemSelected(scenarios, d) && DemNodes(scenarios)[i] == DemNode(d, scenarios)
    {
      assert kept[i] in kept;
    }
  }

  /** The leaves of one mechanism: its selected scenarios in catalogue order, each `{ name, value: 1 }`. */
  lemma DemLeaves(d: Dem, scenarios: seq<string>)
    ensures var r := DemNode(d, scenarios);
      && r.name == d.name && r.value == None && r.children.Present?
      && IsSubseq(Names(Kids(r)), d.scenarios)
      && (forall n :: n in Names(Kids(r)) <==> n in d.scenarios && n in scenarios)
      && (forall i :: 0 <= i < |Kids(r)| ==> Kids(r)[i].value == Some(1) && Kids(r)[i].children == Absent)
  {
    var key := (s: string) => s;
    assert Map(key, d.scenarios) == d.scenarios;
    LevelNames(InList(scenarios), d.scenarios, key, ScenarioLeaf);
  }

  /** Every node at depth 3 (a tier-2 node) has exactly the mechanism level `DemNodes(scenarios)` below it. */
  lemma {:induction false} SubtreesUniform(riskTitle: string, contexts: seq<string>, sel: seq<EquipmentItem>, scenarios: seq<string>)
    ensures UniformAt(CreateStructuredRiskTitleData(riskTitle, contexts, sel, scenarios), 3, DemNodes(scenarios))
  {
    var r := CreateStructuredRiskTitleData(riskTitle, contexts, sel, scenarios);
    var cs := Kids(r);
    forall i | 0 <= i < |cs|
      ensures UniformAt(cs[i], 2, DemNodes(scenarios))
    {
      var gs := Kids(cs[i]);
      forall j | 0 <= j < |gs|
        ensures UniformAt(gs[j], 1, DemNodes(scenarios))
      {
        var ss := Kids(gs[j]);
        forall k | 0 <= k < |ss|
          ensures UniformAt(ss[k], 0, DemNodes(scenarios))
        {
        }
      }
    }
  }

  /** Values sit on the scenario leaves only, each worth 1. */
  lemma {:induction false} BuiltUnitLeaves(riskTitle: string, contexts: seq<string>, sel: seq<EquipmentItem>, scenarios: seq<string>)
    ensures UnitLeaves(CreateStructuredRiskTitleData(riskTitle, contexts, sel, scenarios))
  {
    var dems := DemNodes(scenarios);
    forall i | 0 <= i < |dems|
      ensures UnitLeaves(dems[i])
    {
      var leaves := Kids(dems[i]);
      forall k | 0 <= k < |leaves|
        ensures UnitLeaves(leaves[k])
      {
      }
    }
    var r := CreateStructuredRiskTitleData(riskTitle, contexts, sel, scenarios);
    var cs := Kids(r);
    forall i | 0 <= i < |cs|
      ensures UnitLeaves(cs[i])
    {
      var gs := Kids(cs[i]);
      forall j | 0 <= j < |gs|
        ensures UnitLeaves(gs[j])
      {
        var ss := Kids(gs[j]);
        forall k | 0 <= k < |ss|
          ensures UnitLeaves(ss[k])
        {
        }
      }
    }
  }

  /**
   * The scenario leaves are the only nodes without a child list, and they
   * all sit five levels below the root; every branch above them, even an
   * empty one, carries a list.
   */
  lemma {:induction false} BuiltLeavesAtFive(riskTitle: string, contexts: seq<string>, sel: seq<EquipmentItem>, scenarios: seq<string>)
    ensures LeavesAt(CreateStructuredRiskTitleData(riskTitle, contexts, sel, scenarios), 5)
  {
    var dems := DemNodes(scenarios);
    forall i | 0 <= i < |dems|
      ensures LeavesAt(dems[i], 1)
    {
      var leaves := Kids(dems[i]);
      forall k | 0 <= k < |leaves|
        ensures LeavesAt(leaves[k], 0)
      {
      }
    }
    var r := CreateStructuredRiskTitleData(riskTitle, contexts, sel, scenarios);
    var cs := Kids(r);
    forall i | 0 <= i < |cs|
      ensures LeavesAt(cs[i], 4)
    {
      var gs := Kids(cs[i]);
      forall j | 0 <= j < |gs|
        ensures LeavesAt(gs[j], 3)
      {
        var ss := Kids(gs[j]);
        forall k | 0 <= k < |ss|
          ensures LeavesAt(ss[k], 2)
        {
        }
      }
    }
  }

  /** The leaves below the mechanism level are the selected catalogue scenarios, counted once per catalogue entry. */
  lemma {:induction false} DemNodesLeafCount(ds: seq<Dem>, scenarios: seq<string>)
    ensures LeafCountSeq(Map((d: Dem) => DemNode(d, scenarios), Filter(DemChosen(scenarios), ds)))
         == |Filter(InList(scenarios), ScenariosOf(ds))|
    decreases |ds|
  {
    var f := (d: Dem) => DemNode(d, scenarios);
    if |ds| > 0 {
      var d := ds[0];
      DemNodesLeafCount(ds[1..], scenarios);
      var m := Map((d: Dem) => d.scenarios, ds);
      assert m[1..] == Map((d: Dem) => d.scenarios, ds[1..]);
      assert ScenariosOf(ds) == d.scenarios + ScenariosOf(ds[1..]);
      FilterAppend(InList(scenarios), d.scenarios, ScenariosOf(ds[1..]));
      var own := Filter(InList(scenarios), d.scenarios);
      ScenarioLeavesCount(own);
      if DemSelected(scenarios, d) {
        var rest := Map(f, Filter(DemChosen(scenarios), ds[1..]));
        assert Map(f, Filter(DemChosen(scenarios), ds)) == [DemNode(d, scenarios)] + rest;
        assert LeafCountSeq([DemNode(d, scenarios)] + rest) == LeafCount(DemNode(d, scenarios)) + LeafCountSeq(rest);
      } else {
        FilterNone(InList(scenarios), d.scenarios);
      }
    }
  }

  lemma {:induction false} ScenarioLeavesCount(names: seq<string>)
    ensures LeafCountSeq(Map(ScenarioLeaf, names)) == |names|
    decreases |names|
  {
    if |names| > 0 {
      ScenarioLeavesCount(names[1..]);
      assert Map(ScenarioLeaf, names)[1..] == Map(ScenarioLeaf, names[1..]);
    }
  }

  /**
   * The total: every tier-2 node carries the same mechanism subtree, so the
   * tree has (tier-2 nodes) x (selected catalogue scenarios) leaves, and
   * its aggregated value equals its leaf count.
   */
  lemma LeafTotal(riskTitle: string, contexts: seq<string>, sel: seq<EquipmentItem>, scenarios: seq<string>)
    ensures var r := CreateStructuredRiskTitleData(riskTitle, contexts, sel, scenarios);
      && LeafCount(r) == CountAtDepth(r, 3) * |Filter(InList(scenarios), AllScenarios())|
      && Total(r) == LeafCount(r)
  {
    var r := CreateStructuredRiskTitleData(riskTitle, contexts, sel, scenarios);
    SubtreesUniform(riskTitle, contexts, sel, scenarios);
    UniformLeafCount(r, 3, DemNodes(scenarios));
    DemNodesLeafCount(AllDems, scenarios);
    BuiltUnitLeaves(riskTitle, contexts, sel, scenarios);
    UnitLeavesTotal(r);
  }

  /**
   * No pruning: with no equipment selected, every selected catalogue context
   * is still emitted, with an empty (present) child list.
   */
  lemma NoPruning(riskTitle: string, contexts: seq<string>, scenarios: seq<string>)
    ensures var r := CreateStructuredRiskTitleData(riskTitle, contexts, [], scenarios);
      && (forall n :: n in Names(Kids(r)) <==> n in ContextNames(OperatingContexts) && n in contexts)
      && (forall i :: 0 <= i < |Kids(r)| ==> Kids(r)[i].children == Present([]))
  {
    RootChildren(riskTitle, contexts, [], scenarios);
    EmptyContexts(Filter(ContextChosen(contexts), OperatingContexts), scenarios);
  }

  /** Every context built with no equipment selected has an empty child list. */
  lemma EmptyContexts(cs: seq<ContextEntry>, scenarios: seq<string>)
    ensures forall i :: 0 <= i < |cs| ==> ContextNode(cs[i], [], scenarios).children == Present([])
  {
    forall i | 0 <= i < |cs|
      ensures ContextNode(cs[i], [], scenarios).children == Present([])
    {
      FilterNone(GroupChosen([]), cs[i].children);
    }
  }

  /** `{ name: scenario }` under a catalogue mechanism: no value, no children. */
  function ScenarioNameNode(sc: string): Node {
    Node(sc, None, Absent)
  }

  /** A mechanism of the static catalogue tree: `value: 1` and all of its scenarios. */
  function FullDemNode(d: Dem): (r: Node)
    ensures r.name == d.name && r.value == Some(1) && Names(Kids(r)) == d.scenarios
    ensures forall k :: 0 <= k < |Kids(r)| ==> Kids(r)[k].value == None && Kids(r)[k].children == Absent
  {
    Node(d.name, Some(1), Present(Map(ScenarioNameNode, d.scenarios)))
  }

  lemma IdentityMap(cs: seq<string>)
    ensures Map((c: string) => c, cs) == cs
  {
  }

  /** The mechanisms of the static catalogue tree, in order. */
  function FullDemNodes(ds: seq<Dem>): (r: seq<Node>)
    ensures Names(r) == DemNames(ds)
    ensures forall k :: 0 <= k < |r| ==> r[k] == FullDemNode(ds[k])
  {
    MapNames(FullDemNode, (d: Dem) => d.name, ds);
    Map(FullDemNode, ds)
  }

  /** A tier-2 item of the static catalogue tree: every mechanism, in catalogue order. */
  function FullSubNode(s: string): Node {
    Node(s, None, Present(FullDemNodes(AllDems)))
  }

  function FullGroupNode(g: EquipmentGroup): (r: Node)
    ensures r.name == g.name && Names(Kids(r)) == g.children
  {
    MapNames(FullSubNode, (c: string) => c, g.children);
    IdentityMap(g.children);
    Node(g.name, None, Present(Map(FullSubNode, g.children)))
  }

  /** The static catalogue tree below one context, for any list of groups. */
  function GroupNodes(gs: seq<EquipmentGroup>): (r: seq<Node>)
    ensures Names(r) == GroupNames(gs)
    ensures forall i :: 0 <= i < |r| ==> r[i] == FullGroupNode(gs[i])
  {
    MapNames(FullGroupNode, (g: EquipmentGroup) => g.name, gs);
    Map(FullGroupNode, gs)
  }

  /**
   * `mapEquipmentToDEMs`: the catalogue groups in order, each tier-2 item
   * carrying all three mechanisms with their full scenario lists (see
   * `GroupNodes`).
   */
  function MapEquipmentToDems(): seq<Node> {
    GroupNodes(Equipment)
  }

  /**
   * In the static catalogue tree the value sits on the mechanisms, not the
   * scenarios: every tier-2 item aggregates to 3 although 15 scenarios hang
   * below it.
   */
  lemma CatalogueSubTotals(s: string)
    ensures Total(FullSubNode(s)) == 3
    ensures LeafCount(FullSubNode(s)) == 15
  {
    FullDemNodesTotals(AllDems);
    CatalogueShape();
    AllScenariosShape();
  }

  /** Mechanisms of the static tree: each is worth 1 and contributes its scenarios as leaves. */
  lemma {:induction false} FullDemNodesTotals(ds: seq<Dem>)
    ensures TotalSeq(Map(FullDemNode, ds)) == |ds|
    ensures LeafCountSeq(Map(FullDemNode, ds)) == |ScenariosOf(ds)|
    decreases |ds|
  {
    if |ds| > 0 {
      FullDemNodesTotals(ds[1..]);
      ScenarioNamesTotals(ds[0].scenarios);
      assert Map(FullDemNode, ds)[1..] == Map(FullDemNode, ds[1..]);
      var m := Map((d: Dem) => d.scenarios, ds);
      assert m[1..] == Map((d: Dem) => d.scenarios, ds[1..]);
    }
  }

  lemma {:induction false} ScenarioNamesTotals(names: seq<string>)
    ensures TotalSeq(Map(ScenarioNameNode, names)) == 0
    ensures LeafCountSeq(Map(ScenarioNameNode, names)) == |names|
    decreases |names|
  {
    if |names| > 0 {
      ScenarioNamesTotals(names[1..]);
      assert Map(ScenarioNameNode, names)[1..] == Map(ScenarioNameNode, names[1..]);
    }
  }
}
