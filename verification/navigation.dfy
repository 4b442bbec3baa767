/**
 * Drill-down navigation of `NestedTreemap`: the current root is a node of
 * the full hierarchy, reached by clicking a tile with children (`zoomToNode`,
 * which looks the clicked node's data up in the full hierarchy with
 * `findNode`) or a breadcrumb segment. The breadcrumb lists the ancestors of
 * the current root that `findPathToNode` collects.
 *
 * The current root is kept as the path leading to it from the root of the
 * full hierarchy; "the current root is the full hierarchy" is "the path is
 * empty".
 */
module Navigation {
  import opened Wrappers
  import opened DataTree
  import opened Hierarchy

  /** Some node of the subtree carries identity `target`. */
  ghost predicate Contains(h: HNode, target: seq<nat>)
    decreases h
  {
    h.id == target || exists i :: 0 <= i < |h.children| && Contains(h.children[i], target)
  }

  /** The identity of every reachable node is contained in the tree. */
  lemma {:induction false} ContainsReachable(h: HNode, p: seq<nat>)
    requires ValidPath(h, p)
    ensures Contains(h, NodeAt(h, p).id)
    decreases p
  {
    if |p| > 0 {
      ContainsReachable(h.children[p[0]], p[1..]);
    }
  }

  /**
   * `findNode(searchNode, targetData)`: pre-order search for the node
   * wrapping the target data, answered as the path leading to it.
   */
  function FindNode(h: HNode, target: seq<nat>): (r: Option<seq<nat>>)
    ensures r.Some? ==> ValidPath(h, r.value) && NodeAt(h, r.value).id == target
    ensures r.None? <==> !Contains(h, target)
    decreases h, 1
  {
    if h.id == target then Some([]) else FindIn(h.children, 0, target)
  }

  /** The loop over `searchNode.children` from child `j` on. */
  function FindIn(cs: seq<HNode>, j: nat, target: seq<nat>): (r: Option<seq<nat>>)
    requires j <= |cs|
    ensures r.Some? ==> (|r.value| > 0 && r.value[0] < |cs| && ValidPath(cs[r.value[0]], r.value[1..])
      && NodeAt(cs[r.value[0]], r.value[1..]).id == target)
    ensures r.None? <==> forall i :: j <= i < |cs| ==> !Contains(cs[i], target)
    decreases cs, |cs| - j
  {
    if j == |cs| then None
    else match FindNode(cs[j], target)
      case Some(p) => Some([j] + p)
      case None => FindIn(cs, j + 1, target)
  }

  /**
   * In a canonical hierarchy the search for a reachable node's identity
   * finds exactly that node.
   */
  lemma FindReachable(h: HNode, p: seq<nat>)
    requires Canonical(h) && ValidPath(h, p)
    ensures FindNode(h, NodeAt(h, p).id) == Some(p)
  {
    ContainsReachable(h, p);
    var r := FindNode(h, NodeAt(h, p).id);
    IdentityDeterminesPath(h, r.value, p);
  }

  /** `findPathToNode`'s result: whether the target was found, and the shared path array. */
  datatype Search = Search(found: bool, trail: seq<HNode>)

  /**
   * `findPathToNode(node, target, path)`: pushes the node, stops when it
   * wraps the target, otherwise searches the children in order and pops the
   * node again when none of them succeeds.
   */
  function Walk(h: HNode, target: seq<nat>, trail: seq<HNode>): (r: Search)
    ensures r.found <==> Contains(h, target)
    ensures !r.found ==> r.trail == trail
    decreases h, 1
  {
    if h.id == target then Search(true, trail + [h])
    else
      var r := WalkIn(h.children, 0, target, trail + [h]);
      if r.found then r else Search(false, r.trail[..|r.trail| - 1])
  }

  function WalkIn(cs: seq<HNode>, j: nat, target: seq<nat>, trail: seq<HNode>): (r: Search)
    requires j <= |cs|
    ensures r.found <==> exists i :: j <= i < |cs| && Contains(cs[i], target)
    ensures !r.found ==> r.trail == trail
    decreases cs, |cs| - j
  {
    if j == |cs| then Search(false, trail)
    else
      var r := Walk(cs[j], target, trail);
      if r.found then r else WalkIn(cs, j + 1, target, r.trail)
  }

  /** The nodes along `p`, from `h` down to the node `p` leads to. */
  function Ancestors(h: HNode, p: seq<nat>): (r: seq<HNode>)
    requires ValidPath(h, p)
    ensures |r| == |p| + 1 && r[0] == h
    decreases p
  {
    if |p| == 0 then [h] else [h] + Ancestors(h.children[p[0]], p[1..])
  }

  /** Entry `k` of the ancestor list is the node reached by the first `k` steps. */
  lemma {:induction false} AncestorsAt(h: HNode, p: seq<nat>, k: nat)
    requires ValidPath(h, p) && k <= |p|
    ensures ValidPath(h, p[..k]) && Ancestors(h, p)[k] == NodeAt(h, p[..k])
    decreases p
  {
    PathPrefix(h, p, k);
    if k > 0 {
      AncestorsAt(h.children[p[0]], p[1..], k - 1);
      assert p[..k][1..] == p[1..][..k - 1];
    }
  }

  /**
   * The recursive path search and the node search agree: the path array ends
   * up holding the ancestors along the path `findNode` would report, and is
   * left as it was when the target is absent.
   */
  lemma {:induction false} WalkFollowsFind(h: HNode, target: seq<nat>, trail: seq<HNode>)
    ensures Walk(h, target, trail) == match FindNode(h, target)
      case None => Search(false, trail)
      case Some(p) => Search(true, trail + Ancestors(h, p))
    decreases h, 1
  {
    if h.id != target {
      WalkInFollowsFindIn(h.children, 0, target, trail + [h]);
      match FindIn(h.children, 0, target)
      case None =>
        assert (trail + [h])[..|trail + [h]| - 1] == trail;
      case Some(p) =>
        assert Ancestors(h, p) == [h] + Ancestors(h.children[p[0]], p[1..]);
    }
  }

  lemma {:induction false} WalkInFollowsFindIn(cs: seq<HNode>, j: nat, target: seq<nat>, trail: seq<HNode>)
    requires j <= |cs|
    ensures WalkIn(cs, j, target, trail) == match FindIn(cs, j, target)
      case None => Search(false, trail)
      case Some(p) => Search(true, trail + Ancestors(cs[p[0]], p[1..]))
    decreases cs, |cs| - j
  {
    if j < |cs| {
      WalkFollowsFind(cs[j], target, trail);
      match FindNode(cs[j], target)
      case Some(p) =>
        assert ([j] + p)[0] == j && ([j] + p)[1..] == p;
      case None =>
        WalkInFollowsFindIn(cs, j + 1, target, trail);
    }
  }

  /** The navigation state: the full hierarchy and the path to the current root. */
  datatype Nav = Nav(full: HNode, at: seq<nat>)

  ghost predicate ValidNav(nav: Nav) {
    Canonical(nav.full) && nav.full.id == [] && ValidPath(nav.full, nav.at)
  }

  /** The current root. */
  function Current(nav: Nav): HNode
    requires ValidPath(nav.full, nav.at)
  {
    NodeAt(nav.full, nav.at)
  }

  /** New data: the full hierarchy is rebuilt and becomes the current root. */
  function OnData(d: Node): (r: Nav)
    ensures ValidNav(r) && r.at == [] && r.full.data == d
  {
    Nav(Build(d, []), [])
  }

  /**
   * `zoomToNode` for the tile at path `q` below the current root: a node
   * with children is looked up in the full hierarchy by its data and becomes
   * the current root; a childless node, or a failed lookup, changes nothing.
   */
  function ZoomTo(nav: Nav, q: seq<nat>): (r: Nav)
    requires ValidPath(nav.full, nav.at) && ValidPath(Current(nav), q)
    ensures r.full == nav.full && ValidPath(r.full, r.at)
    ensures r.at == nav.at || (|NodeAt(Current(nav), q).children| > 0 && Current(r).id == NodeAt(Current(nav), q).id)
    ensures |NodeAt(Current(nav), q).children| == 0 ==> r == nav
  {
    var d := NodeAt(Current(nav), q);
    if |d.children| > 0 then
      match FindNode(nav.full, d.id)
      case Some(p) => Nav(nav.full, p)
      case None => nav
    else nav
  }

  /**
   * Zooming into a tile with children makes the current root the tile's
   * node: the path grows by exactly the tile's path. Zooming into a leaf does
   * nothing.
   */
  lemma ZoomDescends(nav: Nav, q: seq<nat>)
    requires ValidNav(nav) && ValidPath(Current(nav), q)
    ensures ValidNav(ZoomTo(nav, q))
    ensures ZoomTo(nav, q).at == if |NodeAt(Current(nav), q).children| > 0 then nav.at + q else nav.at
  {
    PathAppend(nav.full, nav.at, q);
    if |NodeAt(Current(nav), q).children| > 0 {
      FindReachable(nav.full, nav.at + q);
    }
  }

  /** One item of the breadcrumb line. */
  datatype Crumb =
    | Instructions
    | Segment(name: string, depth: nat)   // clicking it makes the ancestor `depth` levels below the root current
    | Separator

  const InstructionsText: string := "Click on a node to navigate the model or hover on the node to show its category"

  /** The segments for ancestors `i` onwards, each but the last followed by a separator; the last entry (the current root) gets none. */
  function Crumbs(path: seq<HNode>, i: nat): (r: seq<Crumb>)
    requires i <= |path|
    decreases |path| - i
  {
    if i + 1 >= |path| then []
    else [Segment(path[i].data.name, i)] + (if i + 2 < |path| then [Separator] else []) + Crumbs(path, i + 1)
  }

  /** `updateBreadcrumb`: instructions at the root, otherwise the ancestors found by `findPathToNode`. */
  function Breadcrumb(nav: Nav): (r: seq<Crumb>)
    requires ValidPath(nav.full, nav.at)
    ensures nav.at == [] <==> r == [Instructions]
  {
    if nav.at == [] then [Instructions]
    else
      var r := Crumbs(Walk(nav.full, Current(nav).id, []).trail, 0);
      assert Instructions !in r by { CrumbsNoInstructions(Walk(nav.full, Current(nav).id, []).trail, 0); }
      r
  }

  lemma {:induction false} CrumbsNoInstructions(path: seq<HNode>, i: nat)
    requires i <= |path|
    ensures Instructions !in Crumbs(path, i)
    decreases |path| - i
  {
    if i + 1 < |path| {
      CrumbsNoInstructions(path, i + 1);
    }
  }

  /** Shape of the segment list: `n - 1` segments for `n` ancestors, separated by `n - 2` separators. */
  lemma {:induction false} CrumbsShape(path: seq<HNode>, i: nat)
    requires i < |path|
    ensures |Crumbs(path, i)| == 2 * (|path| - 1 - i) - (if i + 1 < |path| then 1 else 0)
    ensures forall k :: 0 <= k < |path| - 1 - i ==> Crumbs(path, i)[2 * k] == Segment(path[i + k].data.name, i + k)
    ensures forall k :: 0 <= k < |path| - 2 - i ==> Crumbs(path, i)[2 * k + 1] == Separator
    decreases |path| - i
  {
    if i + 1 < |path| {
      CrumbsShape(path, i + 1);
      var head := [Segment(path[i].data.name, i)] + (if i + 2 < |path| then [Separator] else []);
      var c := Crumbs(path, i);
      assert c == head + Crumbs(path, i + 1);
      forall k | 1 <= k < |path| - 1 - i
        ensures c[2 * k] == Segment(path[i + k].data.name, i + k) && (k < |path| - 2 - i ==> c[2 * k + 1] == Separator)
      {
        assert c[2 * k] == Crumbs(path, i + 1)[2 * (k - 1)];
        if k < |path| - 2 - i {
          assert c[2 * k + 1] == Crumbs(path, i + 1)[2 * (k - 1) + 1];
        }
      }
    }
  }

  /**
   * Away from the root the breadcrumb names the ancestors of the current root
   * from the top down, the current root itself excluded: segment `k` names
   * the node `k` steps below the root and leads back to it, and separators
   * sit between segments.
   */
  lemma BreadcrumbNamesAncestors(nav: Nav)
    requires ValidNav(nav) && nav.at != []
    ensures |Breadcrumb(nav)| == 2 * |nav.at| - 1
    ensures forall k :: 0 <= k < |nav.at| ==>
      ValidPath(nav.full, nav.at[..k]) && Breadcrumb(nav)[2 * k] == Segment(NodeAt(nav.full, nav.at[..k]).data.name, k)
    ensures forall k :: 0 <= k < |nav.at| - 1 ==> Breadcrumb(nav)[2 * k + 1] == Separator
  {
    FindReachable(nav.full, nav.at);
    WalkFollowsFind(nav.full, Current(nav).id, []);
    var path := Ancestors(nav.full, nav.at);
    assert Walk(nav.full, Current(nav).id, []).trail == path;
    CrumbsShape(path, 0);
    forall k | 0 <= k < |nav.at|
      ensures ValidPath(nav.full, nav.at[..k]) && path[k] == NodeAt(nav.full, nav.at[..k])
    {
      AncestorsAt(nav.full, nav.at, k);
    }
  }

  /** Clicking breadcrumb segment `k`: the ancestor `k` steps below the root becomes the current root. */
  function ClickSegment(nav: Nav, k: nat): (r: Nav)
    requires ValidPath(nav.full, nav.at) && k < |nav.at|
    ensures r.full == nav.full && r.at == nav.at[..k] && ValidPath(r.full, r.at)
  {
    PathPrefix(nav.full, nav.at, k);
    Nav(nav.full, nav.at[..k])
  }

  /**
   * Zooming into a tile with children and then clicking the breadcrumb
   * segment of the old current root returns to where navigation started.
   */
  lemma ZoomThenBack(nav: Nav, q: seq<nat>)
    requires ValidNav(nav) && ValidPath(Current(nav), q)
    requires |NodeAt(Current(nav), q).children| > 0 && |q| > 0
    ensures |ZoomTo(nav, q).at| > |nav.at|
    ensures ClickSegment(ZoomTo(nav, q), |nav.at|) == nav
  {
    ZoomDescends(nav, q);
    assert (nav.at + q)[..|nav.at|] == nav.at;
  }
}
