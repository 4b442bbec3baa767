/**
 * What one render pass of `NestedTreemap` puts on screen for the current
 * root: nothing new before the container has a size, a placeholder message
 * when the current root's total is 0, and otherwise the title, the
 * breadcrumb and one tile per visible node of the hierarchy rebuilt from the
 * current root's data. Each tile has a label, a category tooltip, a wrap
 * decision and a click behaviour; rectangle geometry and colours are not
 * modelled.
 */
module Render {
  import opened Seqs
  import opened DataTree
  import opened Hierarchy
  import opened Navigation
  import Builder
  import EquipmentPicker

  /** The `maxDepth` property: a number, or `Infinity` (the default). */
  datatype MaxDepth = Finite(limit: int) | Unbounded

  /** `relativeDepth <= maxDepth`. */
  predicate Within(relDepth: nat, md: MaxDepth) {
    md.Unbounded? || relDepth <= md.limit
  }

  /** The visibility filter: the current root always, any other node when within the depth limit. */
  predicate IsVisible(q: seq<nat>, md: MaxDepth) {
    q == [] || Within(|q|, md)
  }

  function VisibleTo(md: MaxDepth): seq<nat> -> bool {
    (q: seq<nat>) => IsVisible(q, md)
  }

  /** All paths of the tree in pre-order, the node itself first. */
  function Paths(h: HNode): seq<seq<nat>>
    decreases h, 1
  {
    [[]] + PathsIn(h.children, 0)
  }

  function PathsIn(cs: seq<HNode>, j: nat): seq<seq<nat>>
    requires j <= |cs|
    decreases cs, |cs| - j
  {
    if j == |cs| then [] else Map((p: seq<nat>) => [j] + p, Paths(cs[j])) + PathsIn(cs, j + 1)
  }

  lemma PrefixedMember(j: nat, ps: seq<seq<nat>>, q: seq<nat>)
    ensures q in Map((p: seq<nat>) => [j] + p, ps) <==> |q| > 0 && q[0] == j && q[1..] in ps
  {
    var m := Map((p: seq<nat>) => [j] + p, ps);
    if q in m {
      var i :| 0 <= i < |m| && m[i] == q;
      assert q[1..] == ps[i];
    }
    if |q| > 0 && q[0] == j && q[1..] in ps {
      var i :| 0 <= i < |ps| && ps[i] == q[1..];
      assert m[i] == [j] + q[1..] == q;
    }
  }

  /** The pre-order listing holds exactly the valid paths. */
  lemma {:induction false} PathsComplete(h: HNode, q: seq<nat>)
    ensures q in Paths(h) <==> ValidPath(h, q)
    decreases h, 1
  {
    PathsInComplete(h.children, 0, q);
  }

  lemma {:induction false} PathsInComplete(cs: seq<HNode>, j: nat, q: seq<nat>)
    requires j <= |cs|
    ensures q in PathsIn(cs, j) <==> |q| > 0 && j <= q[0] < |cs| && ValidPath(cs[q[0]], q[1..])
    decreases cs, |cs| - j
  {
    if j < |cs| {
      PrefixedMember(j, Paths(cs[j]), q);
      if |q| > 0 {
        PathsComplete(cs[j], q[1..]);
      }
      PathsInComplete(cs, j + 1, q);
    }
  }

  /** `root.descendants().filter(...)`: the visible nodes, as paths below the current root. */
  function VisiblePaths(h: HNode, md: MaxDepth): (r: seq<seq<nat>>)
    ensures forall q :: q in r <==> ValidPath(h, q) && IsVisible(q, md)
  {
    var r := Filter(VisibleTo(md), Paths(h));
    assert forall q :: q in r <==> ValidPath(h, q) && IsVisible(q, md) by {
      forall q
        ensures q in r <==> ValidPath(h, q) && IsVisible(q, md)
      {
        PathsComplete(h, q);
      }
    }
    r
  }

  /** The text of a tile: the bare name for an actual leaf, otherwise the name with the formatted total. */
  datatype Label = Bare(name: string) | WithValue(name: string, value: int)

  /** `isActualLeafNode`: no children in the hierarchy and no `children` field in the data. */
  predicate ActualLeaf(n: HNode) {
    |n.children| == 0 && n.data.children.Absent?
  }

  function LabelOf(n: HNode): Label {
    if ActualLeaf(n) then Bare(n.data.name) else WithValue(n.data.name, n.value)
  }

  /**
   * In a hierarchy built by d3 a tile shows its bare name exactly when its
   * data has no `children` field; every other tile, an emitted but empty
   * branch included, shows the subtree total.
   */
  lemma LabelBareIffNoChildField(n: HNode)
    requires Canonical(n)
    ensures LabelOf(n).Bare? <==> n.data.children.Absent?
    ensures LabelOf(n).name == n.data.name
    ensures LabelOf(n).WithValue? ==> LabelOf(n).value == Total(n.data)
  {
  }

  /** `NODE_CATEGORIES`: the level names, from the root down. */
  const NodeCategories: seq<string> := [
    "Risk",
    "Operating Context",
    "Equipment Level 1",
    "Equipment Level 2",
    "Damaging Energy Mechanism",
    "Scenario"
  ]

  /** `NODE_CATEGORIES[depth] || "Category"`: the category named for a depth. */
  function Category(depth: nat): (r: string)
    ensures depth < |NodeCategories| ==> r == NodeCategories[depth]
    ensures depth >= |NodeCategories| ==> r == "Category"
  {
    if depth < |NodeCategories| then NodeCategories[depth] else "Category"
  }

  lemma CategoriesDistinct()
    ensures Distinct(NodeCategories)
  {
    var c := NodeCategories;
    assert |c[0]| == 4 && |c[1]| == 17 && |c[2]| == 17 && |c[3]| == 17 && |c[4]| == 25 && |c[5]| == 8;
    assert c[2][16] != c[3][16] && c[1][0] != c[2][0] && c[1][0] != c[3][0];
  }

  /** Different depths within the list name different categories. */
  lemma CategoryInjective(a: nat, b: nat)
    requires a < |NodeCategories| && b < |NodeCategories| && a != b
    ensures Category(a) != Category(b)
  {
    CategoriesDistinct();
  }

  /** Only the depth of a scenario is named "Scenario". */
  lemma ScenarioCategory(d: nat)
    ensures Category(d) == "Scenario" <==> d == 5
  {
    if d < 5 {
      CategoryInjective(d, 5);
    } else if d > 5 {
      assert Category(d)[0] != "Scenario"[0];
    }
  }

  /**
   * In a hierarchy whose data has its childless nodes exactly `k` levels
   * down, a node has no `children` field exactly when its path is `k` long.
   */
  lemma {:induction false} NoChildFieldDepth(h: HNode, p: seq<nat>, k: nat)
    requires Canonical(h) && LeavesAt(h.data, k) && ValidPath(h, p)
    ensures NodeAt(h, p).data.children.Absent? <==> |p| == k
    decreases p
  {
    if |p| > 0 {
      ChildCanonical(h, p[0]);
      var c := h.children[p[0]];
      var j :| 0 <= j < |Kids(h.data)| && c.data == Kids(h.data)[j] && c.id == h.id + [j];
      assert LeavesAt(c.data, k - 1);
      NoChildFieldDepth(c, p[1..], k - 1);
    }
  }

  /** `isActualLeafNode || isAtMaxDepth`: which tile labels are wrapped. */
  predicate ShouldWrap(n: HNode, relDepth: nat, md: MaxDepth) {
    ActualLeaf(n) || (md.Finite? && relDepth == md.limit && |n.children| > 0)
  }

  /** One drawn node: its path below the current root, label, tooltip, wrap decision and whether it is clickable. */
  datatype Tile = Tile(path: seq<nat>, caption: Label, tooltip: string, wrap: bool, clickable: bool)

  /**
   * The tile the code draws for path `q` below the current root. Its
   * tooltip is looked up at `d.depth` of the hierarchy rebuilt from the
   * current root, which is `|q|`: the depth counted from the current root.
   */
  function TileAt(view: HNode, md: MaxDepth, q: seq<nat>): (t: Tile)
    requires ValidPath(view, q)
  {
    var n := NodeAt(view, q);
    Tile(q, LabelOf(n), Category(|q|), ShouldWrap(n, |q|, md), |n.children| > 0)
  }

  /**
   * When a drawn tile's label wraps: a node without children wraps exactly
   * when its data has no `children` field, and a node with children wraps
   * exactly when it sits at the depth limit. A wrapped tile's children are
   * never drawn, and a drawn tile below the current root whose children are
   * hidden by the limit wraps.
   */
  lemma WrapRule(view: HNode, md: MaxDepth, q: seq<nat>)
    requires ValidPath(view, q) && IsVisible(q, md)
    ensures var t := TileAt(view, md, q);
      var n := NodeAt(view, q);
      && (|n.children| == 0 ==> (t.wrap <==> n.data.children.Absent?))
      && (|n.children| > 0 ==> (t.wrap <==> md.Finite? && |q| == md.limit))
      && (t.wrap ==> forall j :: 0 <= j < |n.children| ==> !IsVisible(q + [j], md))
      && (|q| > 0 && |n.children| > 0 && !IsVisible(q + [0], md) ==> t.wrap)
  {
  }

  /** One tile per path, in order. */
  function TilesOf(view: HNode, md: MaxDepth, ps: seq<seq<nat>>): (r: seq<Tile>)
    requires forall i :: 0 <= i < |ps| ==> ValidPath(view, ps[i])
    ensures |r| == |ps|
    ensures forall i :: 0 <= i < |ps| ==> r[i] == TileAt(view, md, ps[i])
  {
    if |ps| == 0 then [] else [TileAt(view, md, ps[0])] + TilesOf(view, md, ps[1..])
  }

  /** The paths of the tiles, in order. */
  function PathsOf(tiles: seq<Tile>): (r: seq<seq<nat>>)
    ensures |r| == |tiles|
    ensures forall i :: 0 <= i < |r| ==> r[i] == tiles[i].path
  {
    if |tiles| == 0 then [] else [tiles[0].path] + PathsOf(tiles[1..])
  }

  /** The container's size as the resize observer last reported it; `0 x 0` before the first report. */
  datatype Dims = Dims(width: int, height: int)

  const InitialDims: Dims := Dims(0, 0)

  /** The resize observer never reports less than 100 in either direction. */
  function Resize(width: int, height: int): (r: Dims)
    ensures r.width >= 100 && r.height >= 100
    ensures r.width >= width && r.height >= height
    ensures (r.width == width || r.width == 100) && (r.height == height || r.height == 100)
  {
    Dims(if width > 100 then width else 100, if height > 100 then height else 100)
  }

  const EmptyMessage: string := "Add at least one scenarios, operating context, and equipment to display the interactive model."

  datatype View =
    | Unchanged                                    // the effect returns before clearing the canvas
    | Placeholder(title: string, message: string)
    | Treemap(title: string, crumbs: seq<Crumb>, tiles: seq<Tile>)

  /**
   * The tiles the code draws below the current root: one per visible node of
   * the hierarchy rebuilt from the current root's data, and no other. The
   * rebuilt hierarchy starts at depth 0, so each tooltip is the category at
   * the tile's depth below the current root.
   */
  function CodeTiles(nav: Nav, md: MaxDepth): (tiles: seq<Tile>)
    requires ValidPath(nav.full, nav.at)
    ensures forall i :: 0 <= i < |tiles| ==> tiles[i].tooltip == Category(|tiles[i].path|)
  {
    var cur := Current(nav);
    var view := Build(cur.data, cur.id);
    TilesOf(view, md, VisiblePaths(view, md))
  }

  /** What a render pass shows once it has decided which tiles to draw. */
  function Frame(nav: Nav, dims: Dims, title: string, tiles: seq<Tile>): (r: View)
    requires ValidPath(nav.full, nav.at)
    ensures r.Unchanged? <==> dims.width == 0 || dims.height == 0
    ensures r.Placeholder? <==> dims.width != 0 && dims.height != 0 && Current(nav).value == 0
    ensures r.Placeholder? ==> r.title == title && r.message == EmptyMessage
    ensures r.Treemap? ==> r.title == title && r.crumbs == Breadcrumb(nav) && r.tiles == tiles
  {
    if dims.width == 0 || dims.height == 0 then Unchanged
    else if Current(nav).value == 0 then Placeholder(title, EmptyMessage)
    else Treemap(title, Breadcrumb(nav), tiles)
  }

  /** One render pass for the current navigation state, as the code draws it. */
  function RenderView(nav: Nav, dims: Dims, md: MaxDepth, title: string): (r: View)
    requires ValidPath(nav.full, nav.at)
    ensures r.Unchanged? <==> dims.width == 0 || dims.height == 0
    ensures r.Placeholder? <==> dims.width != 0 && dims.height != 0 && Current(nav).value == 0
    ensures r.Placeholder? ==> r.title == title && r.message == EmptyMessage
    ensures r.Treemap? ==> r.title == title && r.crumbs == Breadcrumb(nav)
    ensures r.Treemap? ==> forall i :: 0 <= i < |r.tiles| ==> r.tiles[i].tooltip == Category(|r.tiles[i].path|)
  {
    Frame(nav, dims, title, CodeTiles(nav, md))
  }

  /** A drawn treemap has one tile for every visible node of the hierarchy rebuilt from the current root, and no other. */
  lemma TilesCoverVisible(nav: Nav, dims: Dims, md: MaxDepth, title: string)
    requires ValidPath(nav.full, nav.at)
    ensures var r := RenderView(nav, dims, md, title);
      r.Treemap? ==> var view := Build(Current(nav).data, Current(nav).id);
        forall q :: q in PathsOf(r.tiles) <==> ValidPath(view, q) && IsVisible(q, md)
  {
    var r := RenderView(nav, dims, md, title);
    if r.Treemap? {
      var view := Build(Current(nav).data, Current(nav).id);
      var paths := VisiblePaths(view, md);
      assert PathsOf(TilesOf(view, md, paths)) == paths;
    }
  }

  /** A tile drawn for path `q` below the node at `at` describes the node at `at + q`; its tooltip counts only the `|q|` levels below `at`. */
  lemma TileDescribesNode(full: HNode, at: seq<nat>, view: HNode, md: MaxDepth, q: seq<nat>)
    requires ValidPath(full, at) && view == NodeAt(full, at) && ValidPath(view, q)
    ensures ValidPath(full, at + q)
    ensures var t := TileAt(view, md, q);
      var n := NodeAt(full, at + q);
      t.path == q && t.caption == LabelOf(n) && t.clickable == (|n.children| > 0) && t.tooltip == Category(|q|)
  {
    PathAppend(full, at, q);
  }

  /**
   * The tiles describe the current root's subtree of the full hierarchy:
   * the rebuilt hierarchy is that subtree, so every tile's label and click
   * behaviour are those of the node reached by following the current path
   * and then the tile's path. The tooltip is the category at the tile's
   * depth below the current root.
   */
  lemma TilesDescribeSubtree(nav: Nav, dims: Dims, md: MaxDepth, title: string)
    requires ValidNav(nav)
    ensures var r := RenderView(nav, dims, md, title);
      r.Treemap? ==> forall i :: 0 <= i < |r.tiles| ==>
        ValidPath(nav.full, nav.at + r.tiles[i].path)
        && r.tiles[i].caption == LabelOf(NodeAt(nav.full, nav.at + r.tiles[i].path))
        && r.tiles[i].clickable == (|NodeAt(nav.full, nav.at + r.tiles[i].path).children| > 0)
        && r.tiles[i].tooltip == Category(|r.tiles[i].path|)
  {
    var r := RenderView(nav, dims, md, title);
    if r.Treemap? {
      var view := Build(Current(nav).data, Current(nav).id);
      RebuildIsSubtree(nav.full, nav.at);
      var paths := VisiblePaths(view, md);
      assert r.tiles == CodeTiles(nav, md) == TilesOf(view, md, paths);
      forall i | 0 <= i < |r.tiles|
        ensures ValidPath(nav.full, nav.at + r.tiles[i].path)
        && r.tiles[i].caption == LabelOf(NodeAt(nav.full, nav.at + r.tiles[i].path))
        && r.tiles[i].clickable == (|NodeAt(nav.full, nav.at + r.tiles[i].path).children| > 0)
        && r.tiles[i].tooltip == Category(|r.tiles[i].path|)
      {
        assert paths[i] in paths;
        TileDescribesNode(nav.full, nav.at, view, md, paths[i]);
      }
    }
  }

  /** Once the resize observer has reported, a render pass always draws something. */
  lemma ResizedViewDraws(nav: Nav, w: int, h: int, md: MaxDepth, title: string)
    requires ValidPath(nav.full, nav.at)
    ensures !RenderView(nav, Resize(w, h), md, title).Unchanged?
  {
  }
}
