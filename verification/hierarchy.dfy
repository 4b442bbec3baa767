/**
 * The layout tree `NestedTreemap` builds from the data with
 * `d3.hierarchy(data).sum(d => d.value || 0).sort((a, b) => b.value - a.value)`.
 *
 * Every node keeps the data node it wraps, an identity `id` and its
 * aggregated `value`; its children are sorted by value, largest first,
 * equal values keeping their data order (`Array.prototype.sort` is stable).
 * The hierarchy has no children where the data list is missing or empty.
 *
 * The application compares nodes by the identity of their data objects.
 * Every data node is a separate object, so the model identifies a data node
 * by its position in the data tree: `id` is the list of child indices
 * leading to it in the unsorted data.
 */
module Hierarchy {
  import opened Seqs
  import opened DataTree

  datatype HNode = HNode(data: Node, id: seq<nat>, value: int, children: seq<HNode>)

  function SumValues(s: seq<HNode>): int {
    if |s| == 0 then 0 else s[0].value + SumValues(s[1..])
  }

  /** Largest value first. */
  predicate SortedDesc(s: seq<HNode>) {
    forall i, j :: 0 <= i < j < |s| ==> s[i].value >= s[j].value
  }

  /** A list holding `x` and the elements of `s` stays below any bound that `x` and `s` stay below. */
  lemma BoundedByParts(r: seq<HNode>, x: HNode, s: seq<HNode>, bound: int)
    requires multiset(r) == multiset(s) + multiset{x}
    ensures x.value <= bound && (forall k :: 0 <= k < |s| ==> s[k].value <= bound) ==>
      forall k :: 0 <= k < |r| ==> r[k].value <= bound
  {
    if x.value <= bound && (forall k :: 0 <= k < |s| ==> s[k].value <= bound) {
      forall k | 0 <= k < |r|
        ensures r[k].value <= bound
      {
        assert r[k] in multiset(r);
        assert r[k] in multiset(s) + multiset{x};
      }
    }
  }

  /** Inserts `x` before the first element whose value does not exceed its own. */
  function Insert(x: HNode, s: seq<HNode>): (r: seq<HNode>)
    ensures |r| == |s| + 1
    ensures multiset(r) == multiset(s) + multiset{x}
  {
    if |s| == 0 then [x]
    else if x.value >= s[0].value then [x] + s
    else
      assert s == [s[0]] + s[1..];
      [s[0]] + Insert(x, s[1..])
  }

  lemma {:induction false} InsertSum(x: HNode, s: seq<HNode>)
    ensures SumValues(Insert(x, s)) == x.value + SumValues(s)
    decreases |s|
  {
    if |s| > 0 {
      if x.value >= s[0].value {
        assert ([x] + s)[1..] == s;
      } else {
        InsertSum(x, s[1..]);
        assert ([s[0]] + Insert(x, s[1..]))[1..] == Insert(x, s[1..]);
      }
    }
  }

  /** Insertion keeps a sorted list sorted. */
  lemma {:induction false} InsertSorted(x: HNode, s: seq<HNode>)
    requires SortedDesc(s)
    ensures SortedDesc(Insert(x, s))
    decreases |s|
  {
    if |s| > 0 && x.value < s[0].value {
      InsertSorted(x, s[1..]);
      var rest := Insert(x, s[1..]);
      BoundedByParts(rest, x, s[1..], s[0].value);
      assert ([s[0]] + rest)[1..] == rest;
    }
  }

  /** Insertion sort: the stable descending sort d3 applies to every child list. */
  function Sort(s: seq<HNode>): (r: seq<HNode>)
    ensures |r| == |s|
    ensures multiset(r) == multiset(s)
    ensures SumValues(r) == SumValues(s)
    ensures SortedDesc(r)
  {
    if |s| == 0 then []
    else
      assert s == [s[0]] + s[1..];
      InsertSum(s[0], Sort(s[1..]));
      InsertSorted(s[0], Sort(s[1..]));
      Insert(s[0], Sort(s[1..]))
  }

  function ValueIs(v: int): HNode -> bool {
    (h: HNode) => h.value == v
  }

  lemma {:induction false} InsertStable(x: HNode, s: seq<HNode>, v: int)
    requires SortedDesc(s)
    ensures Filter(ValueIs(v), Insert(x, s)) ==
      if x.value == v then [x] + Filter(ValueIs(v), s) else Filter(ValueIs(v), s)
    decreases |s|
  {
    if |s| > 0 {
      if x.value >= s[0].value {
        assert ([x] + s)[1..] == s;
      } else {
        InsertStable(x, s[1..], v);
        var rest := Insert(x, s[1..]);
        assert ([s[0]] + rest)[1..] == rest;
      }
    }
  }

  /**
   * Stability: the nodes of any one value appear in the sorted list in the
   * same order as in the input.
   */
  lemma {:induction false} SortStable(s: seq<HNode>, v: int)
    ensures Filter(ValueIs(v), Sort(s)) == Filter(ValueIs(v), s)
    decreases |s|
  {
    if |s| > 0 {
      SortStable(s[1..], v);
      InsertStable(s[0], Sort(s[1..]), v);
    }
  }

  lemma {:induction false} InsertDistinct(x: HNode, s: seq<HNode>)
    requires Distinct(s) && x !in s
    ensures Distinct(Insert(x, s))
    decreases |s|
  {
    if |s| > 0 && x.value < s[0].value {
      InsertDistinct(x, s[1..]);
      var rest := Insert(x, s[1..]);
      assert s[0] !in multiset(s[1..]) + multiset{x};
      assert s[0] !in rest;
      forall i, j | 0 <= i < j < |[s[0]] + rest|
        ensures ([s[0]] + rest)[i] != ([s[0]] + rest)[j]
      {
        if i == 0 {
          assert ([s[0]] + rest)[j] == rest[j - 1];
        } else {
          assert ([s[0]] + rest)[i] == rest[i - 1] && ([s[0]] + rest)[j] == rest[j - 1];
        }
      }
    }
  }

  /** Sorting a list without repeated nodes repeats none. */
  lemma {:induction false} SortDistinct(s: seq<HNode>)
    requires Distinct(s)
    ensures Distinct(Sort(s))
    decreases |s|
  {
    if |s| > 0 {
      SortDistinct(s[1..]);
      assert s[0] !in multiset(Sort(s[1..]));
      InsertDistinct(s[0], Sort(s[1..]));
    }
  }

  /**
   * `d3.hierarchy(d)` with `.sum` and `.sort`, for the data node whose
   * identity is `id`: the value of every node is the sum of the own values in
   * its subtree, and each child list is sorted.
   */
  function Build(d: Node, id: seq<nat>): (r: HNode)
    ensures r.data == d && r.id == id
    ensures r.value == Total(d)
    ensures |r.children| == |Kids(d)|
    ensures SortedDesc(r.children)
    decreases d, 1
  {
    match d.children
    case Absent => HNode(d, id, Own(d), [])
    case Present(ns) =>
      var kids := BuildKids(ns, id);
      SumOfTotals(kids, ns);
      HNode(d, id, Own(d) + SumValues(kids), Sort(kids))
  }

  /** The children in data order, child `j` identified by `id + [j]`. */
  function BuildKids(ns: seq<Node>, id: seq<nat>): (r: seq<HNode>)
    ensures |r| == |ns|
    ensures forall j :: 0 <= j < |r| ==> r[j] == Build(ns[j], id + [j])
    ensures forall j :: 0 <= j < |r| ==> r[j].data == ns[j] && r[j].id == id + [j] && r[j].value == Total(ns[j])
    decreases ns, 0
  {
    seq(|ns|, j requires 0 <= j < |ns| => Build(ns[j], id + [j]))
  }

  lemma {:induction false} SumOfTotals(kids: seq<HNode>, ns: seq<Node>)
    requires |kids| == |ns|
    requires forall j :: 0 <= j < |kids| ==> kids[j].value == Total(ns[j])
    ensures SumValues(kids) == TotalSeq(ns)
    decreases |ns|
  {
    if |ns| > 0 {
      SumOfTotals(kids[1..], ns[1..]);
    }
  }

  /** The node is exactly what `d3.hierarchy` builds from its data and identity. */
  ghost predicate Canonical(h: HNode) {
    h == Build(h.data, h.id)
  }

  /**
   * A child of a canonical node is canonical, wraps one of the data children
   * and carries that child's identity.
   */
  lemma ChildCanonical(h: HNode, i: nat)
    requires Canonical(h) && i < |h.children|
    ensures Canonical(h.children[i])
    ensures exists k :: 0 <= k < |Kids(h.data)| && h.children[i].data == Kids(h.data)[k] && h.children[i].id == h.id + [k]
  {
    var ns := h.data.children.nodes;
    var kids := BuildKids(ns, h.id);
    assert h.children == Sort(kids);
    assert h.children[i] in multiset(kids);
    var k :| 0 <= k < |kids| && kids[k] == h.children[i];
  }

  /** The children of a canonical node are pairwise different values. */
  lemma ChildrenDistinct(h: HNode)
    requires Canonical(h)
    ensures Distinct(h.children)
  {
    match h.data.children
    case Absent =>
    case Present(ns) =>
      var kids := BuildKids(ns, h.id);
      forall i, j | 0 <= i < j < |kids|
        ensures kids[i] != kids[j]
      {
        assert kids[i].id[|h.id|] == i && kids[j].id[|h.id|] == j;
      }
      SortDistinct(kids);
  }

  /** `p` leads from `h` to a node: every index is in range of the child list it selects from. */
  ghost predicate ValidPath(h: HNode, p: seq<nat>)
    decreases p
  {
    |p| == 0 || (p[0] < |h.children| && ValidPath(h.children[p[0]], p[1..]))
  }

  /** The node `p` leads to. */
  function NodeAt(h: HNode, p: seq<nat>): HNode
    requires ValidPath(h, p)
    decreases p
  {
    if |p| == 0 then h else NodeAt(h.children[p[0]], p[1..])
  }

  /** Following `p` and then `q` is following `p + q`. */
  lemma {:induction false} PathAppend(h: HNode, p: seq<nat>, q: seq<nat>)
    ensures ValidPath(h, p + q) <==> ValidPath(h, p) && ValidPath(NodeAt(h, p), q)
    ensures ValidPath(h, p + q) ==> NodeAt(h, p + q) == NodeAt(NodeAt(h, p), q)
    decreases p
  {
    if |p| == 0 {
      assert p + q == q;
    } else {
      assert (p + q)[0] == p[0] && (p + q)[1..] == p[1..] + q;
      if p[0] < |h.children| {
        PathAppend(h.children[p[0]], p[1..], q);
      }
    }
  }

  /** One step down from a reachable node. */
  lemma PathSnoc(h: HNode, p: seq<nat>, i: nat)
    requires ValidPath(h, p) && i < |NodeAt(h, p).children|
    ensures ValidPath(h, p + [i]) && NodeAt(h, p + [i]) == NodeAt(h, p).children[i]
  {
    PathAppend(h, p, [i]);
  }

  /** Every prefix of a valid path is valid. */
  lemma PathPrefix(h: HNode, p: seq<nat>, k: nat)
    requires ValidPath(h, p) && k <= |p|
    ensures ValidPath(h, p[..k])
  {
    assert p == p[..k] + p[k..];
    PathAppend(h, p[..k], p[k..]);
  }

  /**
   * Below a canonical node every reachable node is canonical, and its identity
   * extends the node's identity by one data index per step.
   */
  lemma {:induction false} ReachableCanonical(h: HNode, p: seq<nat>)
    requires Canonical(h) && ValidPath(h, p)
    ensures Canonical(NodeAt(h, p))
    ensures |NodeAt(h, p).id| == |h.id| + |p|
    ensures NodeAt(h, p).id[..|h.id|] == h.id
    ensures |p| > 0 ==> NodeAt(h, p).id[..|h.id| + 1] == h.children[p[0]].id
    decreases p
  {
    if |p| > 0 {
      var c := h.children[p[0]];
      ChildCanonical(h, p[0]);
      ReachableCanonical(c, p[1..]);
      var n := NodeAt(h, p);
      assert c.id[..|h.id|] == h.id;
      PrefixOfPrefix(n.id, c.id, |h.id|);
    }
  }

  /** A prefix of a prefix is a prefix. */
  lemma PrefixOfPrefix(a: seq<nat>, b: seq<nat>, n: nat)
    requires n <= |b| <= |a| && a[..|b|] == b
    ensures a[..n] == b[..n]
  {
  }

  /** Two children of a canonical node with the same identity are the same child. */
  lemma ChildIdentity(h: HNode, i: nat, j: nat)
    requires Canonical(h) && i < |h.children| && j < |h.children|
    requires h.children[i].id == h.children[j].id
    ensures i == j
  {
    var c1, c2 := h.children[i], h.children[j];
    ChildCanonical(h, i);
    ChildCanonical(h, j);
    var k1 :| 0 <= k1 < |Kids(h.data)| && c1.data == Kids(h.data)[k1] && c1.id == h.id + [k1];
    var k2 :| 0 <= k2 < |Kids(h.data)| && c2.data == Kids(h.data)[k2] && c2.id == h.id + [k2];
    assert k1 == c1.id[|h.id|] && k2 == c2.id[|h.id|];
    assert c1 == Build(c1.data, c1.id) == Build(c2.data, c2.id) == c2;
    ChildrenDistinct(h);
  }

  /** In a canonical tree two paths reach nodes with the same identity only if they are the same path. */
  lemma {:induction false} IdentityDeterminesPath(h: HNode, p: seq<nat>, q: seq<nat>)
    requires Canonical(h) && ValidPath(h, p) && ValidPath(h, q)
    requires NodeAt(h, p).id == NodeAt(h, q).id
    ensures p == q
    decreases p
  {
    ReachableCanonical(h, p);
    ReachableCanonical(h, q);
    if |p| > 0 {
      var c := h.children[p[0]];
      assert c.id == h.children[q[0]].id;
      ChildIdentity(h, p[0], q[0]);
      ChildCanonical(h, p[0]);
      IdentityDeterminesPath(c, p[1..], q[1..]);
      assert p == [p[0]] + p[1..] && q == [q[0]] + q[1..];
    }
  }

  /** Rebuilding the hierarchy from a reachable node's data reproduces that node's subtree. */
  lemma RebuildIsSubtree(h: HNode, p: seq<nat>)
    requires Canonical(h) && ValidPath(h, p)
    ensures Build(NodeAt(h, p).data, NodeAt(h, p).id) == NodeAt(h, p)
  {
    ReachableCanonical(h, p);
  }
}
