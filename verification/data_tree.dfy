/**
 * The plain data tree handed to the treemap: `{ name, value?, children? }`.
 * A node's `children` field is either absent (a scenario leaf) or present,
 * possibly empty (an emitted branch with nothing selected under it); the
 * label rule tells these two cases apart, so the model does too.
 */
module DataTree {
  import opened Wrappers
  import opened Seqs

  datatype Node = Node(name: string, value: Option<int>, children: Children)

  /** The `children` field: missing, or a (possibly empty) list. */
  datatype Children = Absent | Present(nodes: seq<Node>)

  /** `d.value || 0`: the node's own contribution to the sums. */
  function Own(d: Node): int {
    d.value.GetOr(0)
  }

  /** The child list, with a missing field read as empty. */
  function Kids(d: Node): seq<Node> {
    match d.children
    case Absent => []
    case Present(cs) => cs
  }

  /** The names of a list of nodes, in order. */
  function Names(ns: seq<Node>): seq<string> {
    Map((n: Node) => n.name, ns)
  }

  /** Sum of the own values over the whole subtree (reference definition of the aggregated value). */
  function Total(d: Node): int
    decreases d, 1
  {
    Own(d) + match d.children
      case Absent => 0
      case Present(cs) => TotalSeq(cs)
  }

  function TotalSeq(ns: seq<Node>): int
    decreases ns
  {
    if |ns| == 0 then 0 else Total(ns[0]) + TotalSeq(ns[1..])
  }

  /** Number of nodes without a `children` field. */
  function LeafCount(d: Node): nat
    decreases d, 1
  {
    match d.children
    case Absent => 1
    case Present(cs) => LeafCountSeq(cs)
  }

  function LeafCountSeq(ns: seq<Node>): nat
    decreases ns
  {
    if |ns| == 0 then 0 else LeafCount(ns[0]) + LeafCountSeq(ns[1..])
  }

  /** Number of nodes exactly `k` levels below `d`. */
  function CountAtDepth(d: Node, k: nat): nat
    decreases d, 1
  {
    if k == 0 then 1
    else match d.children
      case Absent => 0
      case Present(cs) => CountAtDepthSeq(cs, k - 1)
  }

  function CountAtDepthSeq(ns: seq<Node>, k: nat): nat
    decreases ns
  {
    if |ns| == 0 then 0 else CountAtDepth(ns[0], k) + CountAtDepthSeq(ns[1..], k)
  }

  /**
   * Every node down to depth `k` has a child list, and every node at depth
   * `k` has exactly the children `sub`.
   */
  ghost predicate UniformAt(d: Node, k: nat, sub: seq<Node>)
    decreases d
  {
    match d.children
    case Absent => false
    case Present(cs) =>
      if k == 0 then cs == sub
      else forall i :: 0 <= i < |cs| ==> UniformAt(cs[i], k - 1, sub)
  }

  /** Values sit on the leaves only, and every leaf is worth 1. */
  ghost predicate UnitLeaves(d: Node)
    decreases d
  {
    match d.children
    case Absent => d.value == Some(1)
    case Present(cs) => d.value == None && forall i :: 0 <= i < |cs| ==> UnitLeaves(cs[i])
  }

  /**
   * The nodes without a `children` field are exactly the nodes `k` levels
   * below `d`: every node above that level has a child list.
   */
  ghost predicate LeavesAt(d: Node, k: nat)
    decreases d
  {
    match d.children
    case Absent => k == 0
    case Present(cs) => k > 0 && forall i :: 0 <= i < |cs| ==> LeavesAt(cs[i], k - 1)
  }

  /** In a tree whose depth-`k` nodes all share the subtree `sub`, the leaves number (nodes at depth `k`) x (leaves of `sub`). */
  lemma {:induction false} UniformLeafCount(d: Node, k: nat, sub: seq<Node>)
    requires UniformAt(d, k, sub)
    ensures LeafCount(d) == CountAtDepth(d, k) * LeafCountSeq(sub)
    decreases d, 1
  {
    var cs := d.children.nodes;
    if k > 0 {
      UniformLeafCountSeq(cs, k - 1, sub);
    }
  }

  lemma {:induction false} UniformLeafCountSeq(ns: seq<Node>, k: nat, sub: seq<Node>)
    requires forall i :: 0 <= i < |ns| ==> UniformAt(ns[i], k, sub)
    ensures LeafCountSeq(ns) == CountAtDepthSeq(ns, k) * LeafCountSeq(sub)
    decreases ns
  {
    if |ns| > 0 {
      UniformLeafCount(ns[0], k, sub);
      UniformLeafCountSeq(ns[1..], k, sub);
      var a, b, l := CountAtDepth(ns[0], k), CountAtDepthSeq(ns[1..], k), LeafCountSeq(sub);
      assert a * l + b * l == (a + b) * l;
    }
  }

  /** When values sit on the leaves only, each worth 1, the aggregated total counts the leaves. */
  lemma {:induction false} UnitLeavesTotal(d: Node)
    requires UnitLeaves(d)
    ensures Total(d) == LeafCount(d)
    decreases d, 1
  {
    match d.children
    case Absent =>
    case Present(cs) => UnitLeavesTotalSeq(cs);
  }

  lemma {:induction false} UnitLeavesTotalSeq(ns: seq<Node>)
    requires forall i :: 0 <= i < |ns| ==> UnitLeaves(ns[i])
    ensures TotalSeq(ns) == LeafCountSeq(ns)
    decreases ns
  {
    if |ns| > 0 {
      UnitLeavesTotal(ns[0]);
      UnitLeavesTotalSeq(ns[1..]);
    }
  }

  /** The sum over a concatenation of sibling lists is the sum of the sums. */
  lemma {:induction false} LeafCountSeqAppend(a: seq<Node>, b: seq<Node>)
    ensures LeafCountSeq(a + b) == LeafCountSeq(a) + LeafCountSeq(b)
    decreases |a|
  {
    if |a| > 0 {
      assert (a + b)[1..] == a[1..] + b;
      LeafCountSeqAppend(a[1..], b);
    } else {
      assert a + b == b;
    }
  }

  lemma {:induction false} CountAtDepthZero(ns: seq<Node>)
    ensures CountAtDepthSeq(ns, 0) == |ns|
    decreases ns
  {
    if |ns| > 0 {
      CountAtDepthZero(ns[1..]);
    }
  }

  /** A list of nodes with the same count at depth `k` each has `|ns|` times that count. */
  lemma {:induction false} CountAtDepthSeqConst(ns: seq<Node>, k: nat, c: nat)
    requires forall i :: 0 <= i < |ns| ==> CountAtDepth(ns[i], k) == c
    ensures CountAtDepthSeq(ns, k) == |ns| * c
    decreases ns
  {
    if |ns| > 0 {
      CountAtDepthSeqConst(ns[1..], k, c);
    }
  }
}
