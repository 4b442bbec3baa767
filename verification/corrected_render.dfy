/**
 * The render pass as the tooltip comment in `NestedTreemap` describes it:
 * each tile's tooltip is the category at the tile's depth in the full
 * hierarchy, not its depth below the current root. It is compared here with
 * the pass the code performs.
 */
module CorrectedRender {
  import opened DataTree
  import opened Hierarchy
  import opened Navigation
  import opened Render
  import opened Seqs
  import Builder
  import EquipmentPicker

  /** Two tiles that differ at most in their tooltip. */
  predicate SameButTooltip(a: Tile, b: Tile) {
    a.path == b.path && a.caption == b.caption && a.wrap == b.wrap && a.clickable == b.clickable
  }

  /**
   * The tiles with each tooltip looked up at the tile's depth in the full
   * hierarchy, `base` levels below whose root the tiles' paths start;
   * nothing else about a tile changes.
   */
  function FullDepthTiles(tiles: seq<Tile>, base: nat): (r: seq<Tile>)
    ensures |r| == |tiles|
    ensures forall i :: 0 <= i < |r| ==>
      SameButTooltip(r[i], tiles[i]) && r[i].tooltip == Category(base + |r[i].path|)
  {
    Map((t: Tile) => t.(tooltip := Category(base + |t.path|)), tiles)
  }

  /** A drawn view with its tooltips taken at full depth, `base` levels below the root of the full hierarchy. */
  function Corrected(v: View, base: nat): (r: View)
    ensures r.Unchanged? == v.Unchanged? && r.Placeholder? == v.Placeholder?
    ensures r.Placeholder? ==> r == v
    ensures r.Treemap? ==> r.title == v.title && r.crumbs == v.crumbs && |r.tiles| == |v.tiles|
    ensures r.Treemap? ==> forall i :: 0 <= i < |r.tiles| ==>
      SameButTooltip(r.tiles[i], v.tiles[i]) && r.tiles[i].tooltip == Category(base + |r.tiles[i].path|)
  {
    match v
    case Treemap(title, crumbs, tiles) => Treemap(title, crumbs, FullDepthTiles(tiles, base))
    case _ => v
  }

  /**
   * The render pass with the tooltip the code's comment describes: the
   * category at the tile's depth in the full hierarchy. Everything else is
   * drawn as in `RenderView`.
   */
  function CorrectedRenderView(nav: Nav, dims: Dims, md: MaxDepth, title: string): View
    requires ValidPath(nav.full, nav.at)
  {
    Corrected(RenderView(nav, dims, md, title), |nav.at|)
  }

  /** In the corrected pass every tile's tooltip is the category of its node's depth in the full hierarchy. */
  lemma CorrectedTilesDescribeSubtree(nav: Nav, dims: Dims, md: MaxDepth, title: string)
    requires ValidNav(nav)
    ensures var r := CorrectedRenderView(nav, dims, md, title);
      r.Treemap? ==> forall i :: 0 <= i < |r.tiles| ==>
        ValidPath(nav.full, nav.at + r.tiles[i].path)
        && r.tiles[i].caption == LabelOf(NodeAt(nav.full, nav.at + r.tiles[i].path))
        && r.tiles[i].tooltip == Category(|NodeAt(nav.full, nav.at + r.tiles[i].path).id|)
  {
    var r := CorrectedRenderView(nav, dims, md, title);
    if r.Treemap? {
      var code := RenderView(nav, dims, md, title);
      TilesDescribeSubtree(nav, dims, md, title);
      forall i | 0 <= i < |r.tiles|
        ensures ValidPath(nav.full, nav.at + r.tiles[i].path)
        && r.tiles[i].caption == LabelOf(NodeAt(nav.full, nav.at + r.tiles[i].path))
        && r.tiles[i].tooltip == Category(|NodeAt(nav.full, nav.at + r.tiles[i].path).id|)
      {
        FullDepthOf(nav.full, nav.at + code.tiles[i].path);
        CorrectedTooltipAt(code, nav.full, nav.at, i);
      }
    }
  }

  /**
   * The corrected tooltip of one tile, `at` being the current root's path,
   * when the tile's node in `full` lies as deep as its path is long.
   */
  lemma CorrectedTooltipAt(v: View, full: HNode, at: seq<nat>, i: nat)
    requires v.Treemap? && i < |v.tiles| && ValidPath(full, at + v.tiles[i].path)
    requires |NodeAt(full, at + v.tiles[i].path).id| == |at + v.tiles[i].path|
    ensures var r := Corrected(v, |at|);
      r.tiles[i].tooltip == Category(|NodeAt(full, at + r.tiles[i].path).id|)
  {
    var t := Corrected(v, |at|).tiles[i];
    assert t.path == v.tiles[i].path && t.tooltip == Category(|at| + |t.path|);
  }

  /** The depth of a node of the full hierarchy is the length of its path. */
  lemma FullDepthOf(full: HNode, p: seq<nat>)
    requires Canonical(full) && full.id == [] && ValidPath(full, p)
    ensures |NodeAt(full, p).id| == |p|
  {
    ReachableCanonical(full, p);
  }

  /**
   * Below a zoomed-in current root the code's tooltip is wrong for every
   * tile within the category list: it names the category of a node `|at|`
   * levels higher up, where the corrected pass names the tile's own.
   */
  lemma TooltipMislabelsZoomed(nav: Nav, dims: Dims, md: MaxDepth, title: string)
    requires ValidPath(nav.full, nav.at) && |nav.at| > 0
    ensures var code := RenderView(nav, dims, md, title);
      var fixed := CorrectedRenderView(nav, dims, md, title);
      code.Treemap? ==> forall i :: 0 <= i < |code.tiles| && |nav.at| + |code.tiles[i].path| < |NodeCategories| ==>
        code.tiles[i].tooltip != fixed.tiles[i].tooltip
  {
    var code := RenderView(nav, dims, md, title);
    if code.Treemap? {
      forall i | 0 <= i < |code.tiles| && |nav.at| + |code.tiles[i].path| < |NodeCategories|
        ensures code.tiles[i].tooltip != CorrectedRenderView(nav, dims, md, title).tiles[i].tooltip
      {
        MislabelledAt(code, |nav.at|, i);
      }
    }
  }

  /** One tile within the category list, `base > 0` levels down: its tooltip by relative depth differs from the corrected one. */
  lemma MislabelledAt(v: View, base: nat, i: nat)
    requires v.Treemap? && i < |v.tiles| && base > 0 && base + |v.tiles[i].path| < |NodeCategories|
    requires v.tiles[i].tooltip == Category(|v.tiles[i].path|)
    ensures v.tiles[i].tooltip != Corrected(v, base).tiles[i].tooltip
  {
    CategoryInjective(|v.tiles[i].path|, base + |v.tiles[i].path|);
  }

  /**
   * In the application's tree, once zoomed in, every tile showing a bare
   * name (a scenario leaf) is labelled "Scenario" by the corrected pass and
   * something else by the code.
   */
  lemma ZoomedScenarioTooltip(nav: Nav, dims: Dims, md: MaxDepth, riskTitle: string, contexts: seq<string>, sel: seq<EquipmentPicker.EquipmentItem>, scenarios: seq<string>)
    requires ValidNav(nav) && |nav.at| > 0
    requires nav.full.data == Builder.CreateStructuredRiskTitleData(riskTitle, contexts, sel, scenarios)
    ensures var code := RenderView(nav, dims, md, riskTitle);
      var fixed := CorrectedRenderView(nav, dims, md, riskTitle);
      code.Treemap? ==> forall i :: 0 <= i < |code.tiles| && code.tiles[i].caption.Bare? ==>
        code.tiles[i].tooltip != "Scenario" && fixed.tiles[i].tooltip == "Scenario"
  {
    var code := RenderView(nav, dims, md, riskTitle);
    var fixed := CorrectedRenderView(nav, dims, md, riskTitle);
    if code.Treemap? {
      Builder.BuiltLeavesAtFive(riskTitle, contexts, sel, scenarios);
      TilesDescribeSubtree(nav, dims, md, riskTitle);
      forall i | 0 <= i < |code.tiles| && code.tiles[i].caption.Bare?
        ensures code.tiles[i].tooltip != "Scenario" && fixed.tiles[i].tooltip == "Scenario"
      {
        ScenarioDepth(nav.full, nav.at + code.tiles[i].path);
        ScenarioCategory(|code.tiles[i].path|);
        ScenarioCategory(|nav.at| + |code.tiles[i].path|);
      }
    }
  }

  /** A node of the application's tree showing a bare name sits exactly five levels down. */
  lemma ScenarioDepth(full: HNode, p: seq<nat>)
    requires Canonical(full) && LeavesAt(full.data, 5) && ValidPath(full, p)
    requires LabelOf(NodeAt(full, p)).Bare?
    ensures |p| == 5
  {
    ReachableCanonical(full, p);
    LabelBareIffNoChildField(NodeAt(full, p));
    NoChildFieldDepth(full, p, 5);
  }
}
